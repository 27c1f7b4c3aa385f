/** The MAINT message queue in its buffer (kernel/debug.c:118-226): a FIFO of
    variable-length messages whose headers and data share one byte array. */
module MsgQueue {
  import opened MsgRing
  import opened Words

  /** What a client sees of a queued message. */
  datatype Message = Message(data: seq<Byte>, complete: bool)

  function Header(e: Entry): Dword {
    if e.complete then e.size else e.size + INCOMPLETE
  }

  /** The memory spells out the headers of all queued messages. */
  ghost predicate Spelled(mem: seq<Byte>, q: seq<Entry>) {
    forall i | 0 <= i < |q| :: EntrySpelled(mem, q[i])
  }

  ghost predicate EntrySpelled(mem: seq<Byte>, e: Entry) {
    e.at + Need(e.size) <= |mem| && mem[e.at..e.at + HEAD] == DwordBytes(Header(e))
  }

  function MessageAt(mem: seq<Byte>, e: Entry): Message
    requires e.at + Need(e.size) <= |mem|
  {
    Message(mem[e.at + HEAD..e.at + HEAD + e.size], e.complete)
  }

  ghost function Messages(mem: seq<Byte>, q: seq<Entry>): (ms: seq<Message>)
    requires Spelled(mem, q)
    ensures |ms| == |q|
    ensures forall i | 0 <= i < |q| :: EntrySpelled(mem, q[i]) && ms[i] == MessageAt(mem, q[i])
  {
    seq(|q|, i requires 0 <= i < |q| => assert EntrySpelled(mem, q[i]); MessageAt(mem, q[i]))
  }

  /** Bytes outside a region do not matter to the message in it. */
  lemma Untouched(mem: seq<Byte>, mem': seq<Byte>, e: Entry, from: nat, to: nat)
    requires |mem| == |mem'| && EntrySpelled(mem, e)
    requires forall k | 0 <= k < |mem| && !(from <= k < to) :: mem'[k] == mem[k]
    requires e.at + Need(e.size) <= from || to <= e.at
    ensures EntrySpelled(mem', e) && MessageAt(mem', e) == MessageAt(mem, e)
  {
    assert mem'[e.at..e.at + HEAD] == mem[e.at..e.at + HEAD];
  }

  function Total(q: seq<Entry>): nat {
    if q == [] then 0 else Total(q[..|q| - 1]) + q[|q| - 1].size
  }

  lemma {:induction false} TotalFirst(q: seq<Entry>)
    requires q != []
    ensures Total(q) == q[0].size + Total(q[1..])
    decreases |q|
  {
    var m := |q| - 1;
    if m == 0 {
      assert q[1..] == [] && q[..0] == [];
    } else {
      TotalFirst(q[..m]);
      assert q[1..][..m - 1] == q[..m][1..];
    }
  }

  lemma {:induction false} TotalComplete(q: seq<Entry>, i: nat)
    requires i < |q|
    ensures Total(q[i := q[i].(complete := true)]) == Total(q)
    decreases |q|
  {
    var m := |q| - 1;
    var q' := q[i := q[i].(complete := true)];
    if i == m {
      assert q'[..m] == q[..m];
    } else {
      TotalComplete(q[..m], i);
      assert q'[..m] == q[..m][i := q[..m][i].(complete := true)];
    }
  }

  class Queue {
    const mem: array<Byte>
    const size: nat            // Size; High lies `size` bytes above the base
    var head: nat
    var tail: nat
    var wrap: nat
    var count: nat
    ghost var q: seq<Entry>

    ghost function Layout(): Ring
      reads this
    {
      Ring(size, head, tail, wrap, q)
    }

    ghost predicate Valid()
      reads this, mem
    {
      && size <= mem.Length && WellFormed(Layout())
      && Spelled(mem[..], q) && count == Total(q)
    }

    /** The queue as a plain FIFO. */
    ghost function Contents(): seq<Message>
      reads this, mem
      requires Valid()
    {
      Messages(mem[..], q)
    }

    lemma DataSize(i: nat)
      requires Valid() && i < |q|
      ensures |Contents()[i].data| == q[i].size && Contents()[i].complete == q[i].complete
    {
      assert EntrySpelled(mem[..], q[i]);
    }

    /** `queueInit` */
    constructor (buffer: array<Byte>, size: nat)
      requires size <= buffer.Length
      ensures Valid() && Contents() == [] && mem == buffer && this.size == size && Layout() == Empty(size)
    {
      mem, this.size := buffer, size;
      head, tail, wrap, count, q := 0, 0, 0, 0, [];
    }

    method Store32(at: nat, x: Dword)
      requires at + HEAD <= mem.Length
      modifies mem
      ensures mem[..] == old(mem[..at]) + DwordBytes(x) + old(mem[at + HEAD..])
    {
      var b := DwordBytes(x);
      mem[at], mem[at + 1], mem[at + 2], mem[at + 3] := b[0], b[1], b[2], b[3];
    }

    method Load32(at: nat) returns (x: Dword)
      requires at + HEAD <= mem.Length
      ensures x == DwordOf(mem[at..at + HEAD])
    {
      x := Assemble(mem[at], mem[at + 1], mem[at + 2], mem[at + 3]);
    }

    /** `queueAllocMsg`: the place of the new message's data, or 0.  It succeeds
        exactly when the layout admits the message, and then appends it. */
    method AllocMsg(msgSize: Size) returns (p: nat)
      requires Valid()
      modifies this, mem
      ensures Valid() && (p != 0 <==> Admits(old(Layout()), msgSize))
      ensures p == 0 ==> Layout() == old(Layout()) && mem[..] == old(mem[..])
      ensures p != 0 ==> Layout() == Alloc(old(Layout()), msgSize) && p == Place(old(Layout()), msgSize) + HEAD
      ensures p != 0 ==> old(Contents()) < Contents() && |Contents()| == |old(Contents())| + 1
      ensures p != 0 ==>
        !Contents()[|old(Contents())|].complete && |Contents()[|old(Contents())|].data| == msgSize
    {
      hide WellFormed, Spelled, EntrySpelled, MessageAt, Total, Disjoint, Admits;
      ghost var r := Layout();
      var need := (HEAD + msgSize + 3) / 4 * 4;
      var fits := Fits(need, msgSize);
      if !fits {
        return 0;
      }
      var at := tail;
      ghost var wrap' := wrap;
      if tail > head && tail + need > size {
        at := 0;
        wrap' := tail;
      }
      assert Alloc(r, msgSize) == Ring(size, head, at + need, wrap', q + [Entry(at, msgSize, false)]);
      AllocWellFormed(r, msgSize);
      RegionsDisjoint(Alloc(r, msgSize));
      WriteHeader(at, msgSize);
      if at != tail {
        wrap := tail;
      }
      tail := at + need;
      count := count + msgSize;
      p := at + HEAD;
    }

    /** The header of a message in a region that no queued message touches. */
    method WriteHeader(at: nat, msgSize: Size)
      requires Spelled(mem[..], q) && at + Need(msgSize) <= mem.Length
      requires var e := Entry(at, msgSize, false);
        forall i, j | 0 <= i < j < |q + [e]| :: Disjoint((q + [e])[i], (q + [e])[j])
      modifies mem, `q
      ensures q == old(q) + [Entry(at, msgSize, false)] && Total(q) == old(Total(q)) + msgSize
      ensures Spelled(mem[..], q)
      ensures old(Messages(mem[..], q)) < Messages(mem[..], q)
      ensures var m := Messages(mem[..], q)[|old(q)|]; !m.complete && |m.data| == msgSize
    {
      ghost var e, m0, q0 := Entry(at, msgSize, false), mem[..], q;
      AllDisjoint(q, e);
      Store32(at, msgSize + INCOMPLETE);
      assert mem[..] == m0[..at] + DwordBytes(Header(e)) + m0[at + HEAD..];
      Appended(m0, mem[..], q, e);
      TotalAppend(q, e);
      q := q + [e];
    }

    /** The tests of `queueAllocMsg`, in its order. */
    method Fits(need: nat, ghost msgSize: Size) returns (ok: bool)
      requires need == Need(msgSize)
      ensures ok <==> Admits(Layout(), msgSize)
    {
      if tail == head {
        return !(wrap != 0 || need > size);
      }
      if tail > head {
        if tail + need <= size {
          return true;
        }
        return !(need > head);
      }
      return !(tail + need > head);
    }

    method HeadHeader() returns (word: Dword)
      requires Valid() && q != []
      ensures q[0].at == head && word == Header(q[0])
    {
      FreeWellFormed(Layout());
      assert EntrySpelled(mem[..], q[0]);
      assert mem[..][head..head + HEAD] == mem[head..head + HEAD];
      DwordRoundTrip(Header(q[0]));
      word := Load32(head);
    }

    /** `queueFreeMsg`: drops the head. */
    method FreeMsg()
      requires Valid() && q != []
      modifies this
      ensures Valid() && Layout() == Free(old(Layout())) && Contents() == old(Contents())[1..]
    {
      hide WellFormed, EntrySpelled, Total;
      ghost var r := Layout();
      FreeWellFormed(r);
      TotalFirst(q);
      HeaderBits(q[0]);
      var word := HeadHeader();
      var msgSize := word % INCOMPLETE;
      head := head + (HEAD + msgSize + 3) / 4 * 4;
      count := count - msgSize;
      if wrap != 0 {
        if head >= wrap {
          head := 0;
          wrap := 0;
        }
      } else if head >= tail {
        head := 0;
        tail := 0;
      }
      q := q[1..];
    }

    /** `queuePeekMsg`: shows the head if its writer has completed it. */
    method PeekMsg() returns (p: nat, msgSize: nat)
      requires Valid()
      ensures p != 0 <==> Contents() != [] && Contents()[0].complete
      ensures p != 0 ==> p + msgSize <= mem.Length && mem[p..p + msgSize] == Contents()[0].data
    {
      hide WellFormed, Total;
      EmptyOrFull(Layout());
      if head == tail && wrap == 0 {
        return 0, 0;
      }
      assert EntrySpelled(mem[..], q[0]);
      HeaderBits(q[0]);
      var word := HeadHeader();
      if word / INCOMPLETE % 2 == 1 {
        return 0, 0;
      }
      p, msgSize := head + HEAD, word;
      assert mem[..][p..p + msgSize] == mem[p..p + msgSize];
    }

    /** `queueCompleteMsg` on the data place of message `i`. */
    method CompleteMsg(p: nat, ghost i: nat)
      requires Valid() && i < |q| && p == q[i].at + HEAD
      modifies this, mem
      ensures Valid() && Layout() == Complete(old(Layout()), i)
      ensures Contents() == old(Contents())[i := old(Contents())[i].(complete := true)]
    {
      hide WellFormed, Total;
      ghost var r, m0 := Layout(), mem[..];
      RegionsDisjoint(r);
      assert EntrySpelled(m0, q[i]);
      DwordRoundTrip(Header(q[i]));
      HeaderBits(q[i]);
      assert m0[p - HEAD..p] == mem[p - HEAD..p];
      var word := Load32(p - HEAD);
      CompleteWellFormed(r, i);
      TotalComplete(q, i);
      Store32(p - HEAD, word % INCOMPLETE);
      q := Complete(r, i).q;
      Completed(m0, mem[..], r.q, i);
    }

    /** What a writer does with the data place it was given: it fills bytes of
        its own message and disturbs no other. */
    method StoreData(p: nat, ghost i: nat, from: nat, bytes: seq<Byte>)
      requires Valid() && i < |q| && p == q[i].at + HEAD && from + |bytes| <= q[i].size
      modifies mem
      ensures Valid()
      ensures var old' := old(Contents())[i];
        Contents() == old(Contents())[i := old'.(data := old'.data[..from] + bytes + old'.data[from + |bytes|..])]
    {
      hide WellFormed, Total;
      ghost var m0 := mem[..];
      RegionsDisjoint(Layout());
      assert EntrySpelled(m0, q[i]);
      for k := 0 to |bytes|
        invariant forall j | 0 <= j < |m0| ::
          mem[j] == if p + from <= j < p + from + k then bytes[j - p - from] else m0[j]
      {
        mem[p + from + k] := bytes[k];
      }
      Filled(m0, mem[..], q, i, from, bytes);
    }

    /** The string terminator that `diva_mnt_insert_message` stores one byte
        behind the data of its message (kernel/debug.c:1155).  The byte is
        padding, or free, or behind the buffer; but when the size is a multiple
        of four and the ring is exactly full it is the low byte of the oldest
        message's header. */
    method StoreTerminator(p: nat, dataSize: nat, ghost i: nat)
      requires Valid() && size < mem.Length
      requires i == |q| - 1 && p == q[i].at + HEAD && dataSize == q[i].size && q[i].at + Need(q[i].size) == tail
      modifies mem
      ensures Layout() == old(Layout())
      ensures Valid() <==> q[i].size % 4 != 0 || tail != head || q[0].size % 0x100 == 0
      ensures Valid() ==> Contents() == old(Contents())
    {
      hide WellFormed, Total, MessageAt, Spelled;
      ghost var m0 := mem[..];
      RegionsDisjoint(Layout());
      assert q[i] in q;
      mem[p + dataSize] := 0;
      assert mem[..] == m0[p + dataSize := 0];
      TerminatorEffect(Layout(), m0, p + dataSize, i);
    }
  }

  lemma TerminatorEffect(r: Ring, m0: seq<Byte>, at: nat, i: nat)
    requires WellFormed(r) && Spelled(m0, r.q) && at < |m0| && i < |r.q| && i == |r.q| - 1
    requires r.q[i].at + Need(r.q[i].size) == r.tail && at == r.q[i].at + HEAD + r.q[i].size
    ensures Spelled(m0[at := 0], r.q) <==> r.q[i].size % 4 != 0 || r.tail != r.head || r.q[0].size % 0x100 == 0
    ensures Spelled(m0[at := 0], r.q) ==> Messages(m0[at := 0], r.q) == Messages(m0, r.q)
  {
    hide WellFormed, MessageAt, EntrySpelled;
    assert EntrySpelled(m0, r.q[i]) && EntrySpelled(m0, r.q[0]);
    if r.q[i].size % 4 != 0 || r.tail != r.head {
      TailFree(r, at, i);
      AllUntouched(m0, m0[at := 0], r.q, at);
    } else {
      FreeWellFormed(r);
      LowByte(m0, r.q[0]);
      if r.q[0].size % 0x100 == 0 {
        assert m0[at := 0] == m0;
      } else if EntrySpelled(m0[at := 0], r.q[0]) {
        LowByte(m0[at := 0], r.q[0]);
      }
    }
  }

  /** Unless the ring is full, the byte after the last message's data is inside
      that message's own padding or in no region at all. */
  lemma TailFree(r: Ring, at: nat, i: nat)
    requires WellFormed(r) && i < |r.q| && i == |r.q| - 1
    requires r.q[i].at + Need(r.q[i].size) == r.tail && at == r.q[i].at + HEAD + r.q[i].size
    requires r.q[i].size % 4 != 0 || r.tail != r.head
    ensures forall j | 0 <= j < |r.q| ::
      r.q[j].at + HEAD + r.q[j].size <= at || at < r.q[j].at
  {
    hide WellFormed;
    RegionsDisjoint(r);
    forall j | 0 <= j < |r.q|
      ensures r.q[j].at + HEAD + r.q[j].size <= at || at < r.q[j].at
    {
      if j < i {
        assert Disjoint(r.q[j], r.q[i]);
        if at == r.tail {
          TailOutside(r, j);
        }
      }
    }
  }

  lemma TailOutside(r: Ring, j: nat)
    requires WellFormed(r) && j < |r.q| && r.tail != r.head
    ensures r.q[j].at + Need(r.q[j].size) <= r.tail || r.tail < r.q[j].at
  {
    if r.wrap == 0 {
      ChainRange(r.q, r.head, r.tail);
    } else {
      var k: nat :| WrappedAt(r, k);
      ChainRange(r.q[..k], r.head, r.wrap);
      ChainRange(r.q[k..], 0, r.tail);
      assert r.q[j] in r.q[..k] || r.q[j] in r.q[k..];
    }
  }

  lemma AllUntouched(m0: seq<Byte>, m1: seq<Byte>, q: seq<Entry>, at: nat)
    requires Spelled(m0, q) && |m0| == |m1| && at < |m0|
    requires forall k | 0 <= k < |m0| && k != at :: m1[k] == m0[k]
    requires forall j | 0 <= j < |q| :: q[j].at + HEAD + q[j].size <= at || at < q[j].at
    ensures Spelled(m1, q) && Messages(m1, q) == Messages(m0, q)
  {
    forall j | 0 <= j < |q|
      ensures EntrySpelled(m1, q[j]) && MessageAt(m1, q[j]) == MessageAt(m0, q[j])
    {
      assert EntrySpelled(m0, q[j]);
      assert m1[q[j].at..q[j].at + HEAD] == m0[q[j].at..q[j].at + HEAD];
      var d := q[j].at + HEAD;
      assert m1[d..d + q[j].size] == m0[d..d + q[j].size];
    }
  }

  lemma LowByte(mem: seq<Byte>, e: Entry)
    requires EntrySpelled(mem, e)
    ensures mem[e.at] == e.size % 0x100
  {
    assert mem[e.at..e.at + HEAD][0] == mem[e.at];
  }

  lemma HeaderBits(e: Entry)
    ensures Header(e) % INCOMPLETE == e.size && (Header(e) / INCOMPLETE % 2 == 1 <==> !e.complete)
    ensures e.complete ==> Header(e) == e.size
  {
  }

  lemma AllDisjoint(q: seq<Entry>, e: Entry)
    requires forall i, j | 0 <= i < j < |q + [e]| :: Disjoint((q + [e])[i], (q + [e])[j])
    ensures forall i | 0 <= i < |q| :: Disjoint(q[i], e)
  {
    forall i | 0 <= i < |q|
      ensures Disjoint(q[i], e)
    {
      assert Disjoint((q + [e])[i], (q + [e])[|q|]);
    }
  }

  lemma Filled(m0: seq<Byte>, m1: seq<Byte>, q: seq<Entry>, i: nat, from: nat, bytes: seq<Byte>)
    requires Spelled(m0, q) && i < |q| && from + |bytes| <= q[i].size && |m1| == |m0|
    requires forall j, k | 0 <= j < k < |q| :: Disjoint(q[j], q[k])
    requires var p := q[i].at + HEAD + from;
      forall j | 0 <= j < |m0| :: m1[j] == if p <= j < p + |bytes| then bytes[j - p] else m0[j]
    ensures Spelled(m1, q)
    ensures var m := Messages(m0, q)[i];
      Messages(m1, q) == Messages(m0, q)[i := m.(data := m.data[..from] + bytes + m.data[from + |bytes|..])]
  {
    var p := q[i].at + HEAD + from;
    assert EntrySpelled(m0, q[i]);
    forall j | 0 <= j < |q|
      ensures EntrySpelled(m1, q[j])
      ensures j != i ==> MessageAt(m1, q[j]) == MessageAt(m0, q[j])
    {
      assert EntrySpelled(m0, q[j]);
      if j != i {
        assert j < i ==> Disjoint(q[j], q[i]);
        assert i < j ==> Disjoint(q[i], q[j]);
        Untouched(m0, m1, q[j], p, p + |bytes|);
      } else {
        assert m1[q[i].at..q[i].at + HEAD] == m0[q[i].at..q[i].at + HEAD];
      }
    }
    var d, at := MessageAt(m0, q[i]).data, q[i].at + HEAD;
    var d' := d[..from] + bytes + d[from + |bytes|..];
    forall j | 0 <= j < q[i].size
      ensures m1[at..at + q[i].size][j] == d'[j]
    {
      assert m1[at..at + q[i].size][j] == m1[at + j] && d[j] == m0[at + j];
      if from + |bytes| <= j {
        assert d'[j] == d[from + |bytes|..][j - from - |bytes|] == d[j];
      } else if from <= j {
        assert d'[j] == bytes[j - from];
      }
    }
    assert m1[at..at + q[i].size] == d[..from] + bytes + d[from + |bytes|..];
  }

  lemma TotalAppend(q: seq<Entry>, e: Entry)
    ensures Total(q + [e]) == Total(q) + e.size
  {
    assert (q + [e])[..|q + [e]| - 1] == q;
  }

  /** Writing the header of a new region leaves the older messages alone. */
  lemma Appended(m0: seq<Byte>, m1: seq<Byte>, q: seq<Entry>, e: Entry)
    requires Spelled(m0, q) && e.at + Need(e.size) <= |m0| && !e.complete
    requires m1 == m0[..e.at] + DwordBytes(Header(e)) + m0[e.at + HEAD..]
    requires forall i | 0 <= i < |q| :: Disjoint(q[i], e)
    ensures Spelled(m1, q + [e]) && Messages(m1, q + [e]) == Messages(m0, q) + [MessageAt(m1, e)]
  {
    forall i | 0 <= i < |q|
      ensures EntrySpelled(m1, q[i]) && MessageAt(m1, q[i]) == MessageAt(m0, q[i])
    {
      Untouched(m0, m1, q[i], e.at, e.at + HEAD);
    }
    assert EntrySpelled(m1, e);
  }

  lemma Completed(m0: seq<Byte>, m1: seq<Byte>, q: seq<Entry>, i: nat)
    requires Spelled(m0, q) && i < |q|
    requires forall j, k | 0 <= j < k < |q| :: Disjoint(q[j], q[k])
    requires q[i].at + HEAD <= |m0| && m1 == m0[..q[i].at] + DwordBytes(q[i].size) + m0[q[i].at + HEAD..]
    ensures var q' := q[i := q[i].(complete := true)];
      Spelled(m1, q') && Messages(m1, q') == Messages(m0, q)[i := Messages(m0, q)[i].(complete := true)]
  {
    var q' := q[i := q[i].(complete := true)];
    forall j | 0 <= j < |q|
      ensures EntrySpelled(m1, q'[j])
      ensures MessageAt(m1, q'[j]).data == MessageAt(m0, q[j]).data
    {
      if j != i {
        assert Disjoint(q[j], q[i]);
        Untouched(m0, m1, q[j], q[i].at, q[i].at + HEAD);
      } else {
        var from := q[i].at + HEAD;
        forall k | from <= k < from + q[i].size
          ensures m1[k] == m0[k]
        {
        }
        assert m1[from..from + q[i].size] == m0[from..from + q[i].size];
      }
    }
  }
}
