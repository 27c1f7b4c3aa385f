/** The MAINT log on top of its queue (kernel/debug.c:847-880, 1108-1213): the
    oldest messages make room for a new one, and sequence numbers let a reader
    see how many were lost. */
module Maint {
  import opened MsgQueue
  import opened MsgRing
  import opened Words

  const ENTRY_HEAD := 32      // sizeof(diva_dbg_entry_head_t); the sequence number comes first

  function SequenceOf(m: Message): Dword
    requires 4 <= |m.data|
  {
    DwordOf(m.data[..4])
  }

  /** The queued messages are complete and numbered first, first + 1, ... */
  ghost predicate Numbered(ms: seq<Message>, first: nat) {
    forall i | 0 <= i < |ms| ::
      ms[i].complete && ENTRY_HEAD <= |ms[i].data| && SequenceOf(ms[i]) == (first + i) % TWO32
  }

  predicate Increasing(s: seq<nat>) {
    forall i, j | 0 <= i < j < |s| :: s[i] < s[j]
  }

  /** Every message number below `n` was either read or lost, and only one of
      the two; both lists are in order. */
  ghost predicate Settled(delivered: seq<nat>, lost: seq<nat>, n: nat) {
    && Increasing(delivered) && Increasing(lost)
    && (forall k: nat :: k < n <==> k in delivered || k in lost)
    && (forall k | k in delivered :: k !in lost)
  }

  /** Numbers first .. first + n - 1. */
  function From(first: nat, n: nat): (s: seq<nat>)
    ensures |s| == n && forall i | 0 <= i < n :: s[i] == first + i
  {
    seq(n, i requires 0 <= i => first + i)
  }

  lemma SettledLose(delivered: seq<nat>, lost: seq<nat>, n: nat, m: nat)
    requires Settled(delivered, lost, n)
    ensures Settled(delivered, lost + From(n, m), n + m)
  {
    var more := From(n, m);
    forall k: nat
      ensures k < n + m <==> k in delivered || k in lost + more
    {
      if n <= k < n + m {
        assert more[k - n] == k;
      }
    }
    forall i, j | 0 <= i < j < |lost + more|
      ensures (lost + more)[i] < (lost + more)[j]
    {
      if i < |lost| <= j {
        assert lost[i] in lost;
      }
    }
    forall k | k in delivered
      ensures k !in lost + more
    {
      assert k < n;
    }
  }

  lemma SettledRead(delivered: seq<nat>, lost: seq<nat>, n: nat)
    requires Settled(delivered, lost, n)
    ensures Settled(delivered + [n], lost, n + 1)
  {
    assert forall i | 0 <= i < |delivered| :: delivered[i] in delivered;
    assert n in delivered + [n];
  }

  /** What a reader sees: between two messages read one after the other, the gap
      in the numbering is exactly the number of messages lost in between. */
  lemma GapIsLoss(delivered: seq<nat>, lost: seq<nat>, n: nat, i: nat)
    requires Settled(delivered, lost, n) && i + 1 < |delivered|
    ensures |set k | k in lost && delivered[i] < k < delivered[i + 1]| == delivered[i + 1] - delivered[i] - 1
  {
    var a, b := delivered[i], delivered[i + 1];
    assert a in delivered && b in delivered;
    forall j | 0 <= j < |delivered|
      ensures !(a < delivered[j] < b)
    {
      if j < i {
        assert delivered[j] < a;
      } else if i + 1 < j {
        assert b < delivered[j];
      }
    }
    assert (set k | k in lost && a < k < b) == Interval(a, b);
  }

  function Interval(a: nat, b: nat): (s: set<nat>)
    requires a < b
    ensures |s| == b - a - 1
    ensures forall k: nat :: k in s <==> a < k < b
    decreases b
  {
    if a + 1 == b then {} else Interval(a, b - 1) + {b - 1}
  }

  /** The ring with a new, complete message behind those that could stay. */
  function Accept(r: Ring, size: Size): (r': Ring)
    ensures r'.q != []
  {
    var a := Alloc(FreeN(r, EvictCount(r, size)), size);
    Complete(a, |a.q| - 1)
  }

  /** Whether a byte behind the new message is nobody's, or is zero already:
      what a producer can tell from the ring as it finds it. */
  predicate Harmless(r: Ring, size: Size) {
    var a := Alloc(FreeN(r, EvictCount(r, size)), size);
    size % 4 != 0 || a.tail != a.head || a.q[0].size % 0x100 == 0
  }

  lemma HarmlessMeans(r: Ring, size: Size)
    ensures var a := Accept(r, size);
      && a.q[|a.q| - 1].size == size
      && (Harmless(r, size) <==> size % 4 != 0 || a.tail != a.head || a.q[0].size % 0x100 == 0)
  {
    AllocLast(FreeN(r, EvictCount(r, size)), size);
  }

  class Log {
    const queue: Queue
    var dbgSequence: Dword
    var busy: bool
    ghost var issued: nat            // messages ever appended
    ghost var delivered: seq<nat>    // numbers of the messages read and released
    ghost var lost: seq<nat>         // numbers of the messages evicted unread

    ghost predicate Valid()
      reads this, queue, queue.mem
    {
      && queue.Valid() && |queue.q| <= issued && dbgSequence == issued % TWO32
      && Numbered(queue.Contents(), issued - |queue.q|)
      && Settled(delivered, lost, issued - |queue.q|)
      && (busy ==> queue.q != [])
    }

    constructor (buffer: array<Byte>, size: nat)
      requires size <= buffer.Length
      ensures Valid() && !busy && queue.mem == buffer && queue.size == size && queue.Contents() == []
      ensures fresh(queue)
    {
      queue := new Queue(buffer, size);
      dbgSequence, busy, issued, delivered, lost := 0, false, 0, [], [];
    }

    /** The evict-and-retry loop that every producer runs under the lock.  It
        leaves the longest suffix of the queue that admits the message and puts
        the message behind it; `n` is the number of messages that had to go. */
    method AllocEvicting(size: Size) returns (p: nat, ghost n: nat)
      requires Valid() && !busy
      modifies queue, queue.mem, `lost
      ensures queue.Valid() && n == EvictCount(old(queue.Layout()), size)
      ensures lost == old(lost) + From(old(issued - |queue.q|), n)
      ensures p != 0 <==> Need(size) <= queue.size
      ensures p == 0 ==> queue.Contents() == [] && n == |old(queue.q)|
      ensures p != 0 ==> queue.Layout() == Alloc(FreeN(old(queue.Layout()), n), size)
      ensures p != 0 ==> queue.q != [] && p == queue.q[|queue.q| - 1].at + HEAD
      ensures p != 0 ==> Appends(old(queue.Contents())[n..], queue.Contents(), size)
    {
      hide WellFormed, Admits, EvictCount, Spelled, EntrySpelled, Messages, MessageAt, Numbered, SequenceOf, Settled, Total;
      hide FreeN, Free, Alloc, Place, Empty, Chain;
      ghost var r, c := queue.Layout(), queue.Contents();
      AllComplete(queue, issued - |queue.q|);
      assert forall i | 0 <= i < |c| :: c[i].complete;
      EvictionSucceeds(r, size);
      FreeNone(r);
      n := 0;
      while true
        invariant queue.Valid() && n <= |r.q| && queue.Layout() == FreeN(r, n) && queue.Contents() == c[n..]
        invariant EvictCount(r, size) == n + EvictCount(FreeN(r, n), size)
        invariant lost == old(lost) + From(issued - |r.q|, n)
        decreases |r.q| - n
      {
        p := queue.AllocMsg(size);
        if p != 0 {
          EvictionStops(FreeN(r, n), size);
          AllocLast(FreeN(r, n), size);
          break;
        }
        var pp, _ := queue.PeekMsg();
        if pp == 0 {
          assert queue.q == [];
          EvictionStops(FreeN(r, n), size);
          break;
        }
        EvictionStep(r, size, n);
        FreeNext(r, n);
        queue.FreeMsg();
        lost := lost + [issued - |r.q| + n];
        n := n + 1;
      }
    }

    /** Fills the message just allocated: the sequence number, then the rest;
        `left` is what stays of the region's former bytes. */
    method Fill(p: nat, rest: seq<Byte>, ghost ms: seq<Message>, ghost size: nat) returns (ghost left: seq<Byte>)
      requires queue.Valid() && queue.q != [] && p == queue.q[|queue.q| - 1].at + HEAD
      requires Appends(ms, queue.Contents(), size) && 4 + |rest| <= size
      modifies queue.mem
      ensures queue.Valid() && 4 + |rest| + |left| == size
      ensures queue.Contents() == ms + [Message(DwordBytes(dbgSequence) + rest + left, false)]
    {
      hide WellFormed, Spelled, EntrySpelled, Messages, MessageAt, Total, Chain, DwordBytes;
      ghost var i := |queue.q| - 1;
      ghost var d := queue.Contents()[i].data;
      queue.DataSize(i);
      queue.StoreData(p, i, 0, DwordBytes(dbgSequence));
      queue.StoreData(p, i, 4, rest);
      left := d[4 + |rest|..];
      Overlay(d, DwordBytes(dbgSequence), rest);
    }

    /** Numbers and fills the message just allocated, and completes it. */
    method Seal(p: nat, rest: seq<Byte>, ghost ms: seq<Message>, ghost first: nat, ghost size: nat)
      returns (ghost left: seq<Byte>)
      requires queue.Valid() && queue.q != [] && p == queue.q[|queue.q| - 1].at + HEAD
      requires Appends(ms, queue.Contents(), size) && ENTRY_HEAD <= 4 + |rest| <= size
      requires Numbered(ms, first) && issued == first + |ms| && dbgSequence == issued % TWO32
      modifies queue, queue.mem, `dbgSequence, `issued
      ensures queue.Valid() && queue.Layout() == Complete(old(queue.Layout()), |old(queue.q)| - 1)
      ensures queue.Contents() == ms + [Message(DwordBytes(old(dbgSequence)) + rest + left, true)]
      ensures Numbered(queue.Contents(), first) && 4 + |rest| + |left| == size
      ensures issued == old(issued) + 1 && dbgSequence == issued % TWO32
    {
      hide WellFormed, Spelled, EntrySpelled, Messages, MessageAt, Total, Chain, SequenceOf, Numbered, DwordBytes, Need;
      left := Fill(p, rest, ms, size);
      queue.CompleteMsg(p, |queue.q| - 1);
      assert queue.Contents() == ms + [Message(DwordBytes(dbgSequence) + rest + left, true)];
      assert DwordBytes(dbgSequence) + rest + left == DwordBytes(dbgSequence) + (rest + left);
      NumberedAppend(ms, first, dbgSequence, rest + left);
      NextSequence(issued, dbgSequence);
      dbgSequence := (dbgSequence + 1) % TWO32;
      issued := issued + 1;
    }

    /** A complete entry of `size` bytes: the sequence number, the rest of the
        header and text, and `left` from the region's former bytes. */
    method AppendSized(rest: seq<Byte>, size: Size) returns (p: nat, ghost left: seq<Byte>)
      requires Valid() && !busy && ENTRY_HEAD <= 4 + |rest| <= size
      modifies queue, queue.mem, `dbgSequence, `issued, `lost
      ensures Valid() && (p != 0 <==> Need(size) <= queue.size)
      ensures lost == old(lost) + From(old(issued - |queue.q|), EvictCount(old(queue.Layout()), size))
      ensures p == 0 ==> queue.Contents() == [] && dbgSequence == old(dbgSequence)
      ensures p != 0 ==> queue.q != [] && p == queue.q[|queue.q| - 1].at + HEAD && 4 + |rest| + |left| == size
      ensures p != 0 ==> queue.Contents() == old(queue.Contents())[EvictCount(old(queue.Layout()), size)..]
                                            + [Message(DwordBytes(old(dbgSequence)) + rest + left, true)]
      ensures p != 0 ==> queue.Layout() == Accept(old(queue.Layout()), size)
    {
      hide WellFormed, Spelled, EntrySpelled, Messages, MessageAt, Total, Chain, Settled, SequenceOf;
      hide EvictCount, FreeN, Admits, Alloc, Free, Numbered, From, Place, DwordBytes, Need;
      left := [];
      ghost var c, first := queue.Contents(), issued - |queue.q|;
      ghost var n;
      p, n := AllocEvicting(size);
      SettledLose(delivered, old(lost), first, n);
      NumberedSuffix(c, first, n);
      if p != 0 {
        left := Seal(p, rest, c[n..], first + n, size);
        assert issued - |queue.q| == first + n;
      } else {
        assert c[n..] == queue.Contents();
        assert issued - |queue.q| == first + n;
      }
    }

    /** A new entry (`DI_append`): the log keeps the longest suffix that leaves
        room for it, and everything else counts as lost. */
    method Append(rest: seq<Byte>)
      requires Valid() && !busy && ENTRY_HEAD <= 4 + |rest| < INCOMPLETE
      modifies queue, queue.mem, `dbgSequence, `issued, `lost
      ensures Valid()
      ensures var size := 4 + |rest|; var n := EvictCount(old(queue.Layout()), size);
        && lost == old(lost) + From(old(issued - |queue.q|), n)
        && (if Need(size) <= queue.size then
              queue.Contents() == old(queue.Contents())[n..] + [Message(DwordBytes(old(dbgSequence)) + rest, true)]
            else
              queue.Contents() == [] && dbgSequence == old(dbgSequence))
    {
      hide Queue.Valid, Numbered, Settled, EvictCount, From, DwordBytes, Need;
      var p, left := AppendSized(rest, 4 + |rest|);
      assert DwordBytes(old(dbgSequence)) + rest + left == DwordBytes(old(dbgSequence)) + rest || p == 0;
    }

    /** `diva_mnt_insert_message`, whose entry ends in one byte more than the
        text.  It does what `Append` does, except that its string terminator
        goes one byte too far; the log survives that unless the ring is exactly
        full and the message's size is a multiple of four.  (The terminator is
        stored before the entry is completed, but in other bytes.) */
    method InsertMessage(fields: seq<Byte>, text: seq<Byte>) returns (written: nat)
      requires Valid() && !busy && 4 + |fields| == ENTRY_HEAD && queue.size < queue.mem.Length
      modifies queue, queue.mem, `dbgSequence, `issued, `lost
      ensures written == 0 || written == if |text| < TEXT_MAX then |text| else TEXT_MAX
      ensures var size := (if |text| < TEXT_MAX then |text| else TEXT_MAX) + ENTRY_HEAD + 1;
        if Need(size) <= queue.size then
          && queue.Layout() == Accept(old(queue.Layout()), size)
          && (Valid() <==> Harmless(old(queue.Layout()), size))
          && !busy
          && (Valid() ==>
                TextAppended(old(queue.Contents())[EvictCount(old(queue.Layout()), size)..], queue.Contents(),
                             DwordBytes(old(dbgSequence)) + fields + text[..written]))
        else
          written == 0 && Valid() && queue.Contents() == [] && dbgSequence == old(dbgSequence)
    {
      hide WellFormed, Spelled, EntrySpelled, Messages, MessageAt, Total, Chain, Settled, SequenceOf;
      hide EvictCount, Numbered, From, DwordBytes, Need, Accept, Harmless;
      HarmlessMeans(queue.Layout(), (if |text| < TEXT_MAX then |text| else TEXT_MAX) + ENTRY_HEAD + 1);
      var length := if |text| < TEXT_MAX then |text| else TEXT_MAX;
      var size := length + ENTRY_HEAD + 1;
      ghost var head := DwordBytes(dbgSequence);
      var p, left := AppendSized(fields + text[..length], size);
      if p == 0 {
        return 0;
      }
      assert head + (fields + text[..length]) + left == head + fields + text[..length] + left;
      queue.DataSize(|queue.q| - 1);
      LastEnds(queue.Layout());
      queue.StoreTerminator(p, size, |queue.q| - 1);
      written := length;
    }

    /** `diva_maint_get_message`: shows the oldest message and keeps the lock. */
    method GetMessage() returns (p: nat, size: nat)
      requires Valid()
      modifies `busy
      ensures Valid() && busy == (old(busy) || queue.Contents() != [])
      ensures p != 0 <==> !old(busy) && queue.Contents() != []
      ensures p != 0 ==> p + size <= queue.mem.Length && queue.mem[p..p + size] == queue.Contents()[0].data
    {
      hide WellFormed, Spelled, EntrySpelled, Messages, MessageAt, Total, Chain, Settled, SequenceOf;
      if busy {
        return 0, 0;
      }
      busy := true;
      p, size := queue.PeekMsg();
      if p == 0 {
        busy := false;
      }
    }

    /** `diva_maint_ack_message`: releases the message that was shown, or
        leaves it for the next reader, and gives the lock back. */
    method AckMessage(doRelease: bool)
      requires Valid()
      modifies this, queue
      ensures Valid() && !busy && dbgSequence == old(dbgSequence) && lost == old(lost)
      ensures if old(busy) && doRelease then
          queue.Contents() == old(queue.Contents())[1..] && delivered == old(delivered) + [old(issued - |queue.q|)]
        else queue.Contents() == old(queue.Contents()) && delivered == old(delivered)
    {
      hide WellFormed, Spelled, EntrySpelled, Messages, MessageAt, Total, Chain, Settled, SequenceOf;
      if !busy {
        return;
      }
      if doRelease {
        ghost var c, first := queue.Contents(), issued - |queue.q|;
        SettledRead(delivered, lost, first);
        NumberedSuffix(c, first, 1);
        queue.FreeMsg();
        delivered := delivered + [first];
      }
      busy := false;
    }
  }

  const TEXT_MAX := 2150      // MSG_FRAME_MAX_SIZE

  /** `ms` followed by one complete entry: `data` and one more byte. */
  ghost predicate TextAppended(ms: seq<Message>, ms': seq<Message>, data: seq<Byte>) {
    && |ms'| == |ms| + 1 && ms'[..|ms|] == ms
    && ms'[|ms|].complete && |ms'[|ms|].data| == |data| + 1 && data < ms'[|ms|].data
  }

  lemma Overlay(d: seq<Byte>, a: seq<Byte>, b: seq<Byte>)
    requires |a| == 4 && 4 + |b| <= |d|
    ensures var d1 := d[..0] + a + d[4..];
      |d1| == |d| && d1[..4] + b + d1[4 + |b|..] == a + b + d[4 + |b|..]
  {
  }

  lemma NextSequence(n: nat, sequence: Dword)
    requires sequence == n % TWO32
    ensures (sequence + 1) % TWO32 == (n + 1) % TWO32
  {
  }

  lemma NumberedSuffix(ms: seq<Message>, first: nat, n: nat)
    requires Numbered(ms, first) && n <= |ms|
    ensures Numbered(ms[n..], first + n)
  {
  }

  lemma NumberedAppend(ms: seq<Message>, first: nat, sequence: Dword, rest: seq<Byte>)
    requires Numbered(ms, first) && sequence == (first + |ms|) % TWO32 && ENTRY_HEAD <= 4 + |rest|
    ensures Numbered(ms + [Message(DwordBytes(sequence) + rest, true)], first)
  {
    var m := Message(DwordBytes(sequence) + rest, true);
    assert m.data[..4] == DwordBytes(sequence);
    DwordRoundTrip(sequence);
  }

  /** The messages `ms` followed by one incomplete message of `size` bytes. */
  ghost predicate Appends(ms: seq<Message>, ms': seq<Message>, size: nat) {
    && |ms'| == |ms| + 1 && ms'[..|ms|] == ms
    && !ms'[|ms|].complete && |ms'[|ms|].data| == size
  }

  lemma AllComplete(queue: Queue, first: nat)
    requires queue.Valid() && Numbered(queue.Contents(), first)
    ensures forall e | e in queue.q :: e.complete
    ensures forall i | 0 <= i < |queue.q| :: queue.Contents()[i].complete
  {
    forall e | e in queue.q
      ensures e.complete
    {
      var i :| 0 <= i < |queue.q| && queue.q[i] == e;
      assert queue.Contents()[i].complete;
    }
  }

  // ------------------------------------------------- the terminator does harm

  const SHORT_TEXT := 3
  const SHORT_SIZE := SHORT_TEXT + ENTRY_HEAD + 1     // with its head, 40 bytes

  /** A ring with `k` texts of three characters from the base on. */
  function Shorts(cap: nat, k: nat): Ring {
    Ring(cap, 0, 40 * k, 0, seq(k, i requires 0 <= i => Entry(40 * i, SHORT_SIZE, true)))
  }

  lemma ShortsGrow(cap: nat, k: nat)
    requires 40 * (k + 1) <= cap
    ensures Accept(Shorts(cap, k), SHORT_SIZE) == Shorts(cap, k + 1)
    ensures Harmless(Shorts(cap, k), SHORT_SIZE)
  {
    var r := Shorts(cap, k);
    assert Admits(r, SHORT_SIZE) && EvictCount(r, SHORT_SIZE) == 0;
    assert Accept(r, SHORT_SIZE).q == Shorts(cap, k + 1).q;
  }

  /** In every ring, the text of three characters that first needs another one
      evicted ends where the oldest message begins. */
  lemma TerminatorCorrupts(cap: nat)
    requires 80 <= cap
    ensures var r := Shorts(cap, cap / 40);
            EvictCount(r, SHORT_SIZE) == 1 && Admits(Free(r), SHORT_SIZE) && !Harmless(r, SHORT_SIZE)
  {
    var r := Shorts(cap, cap / 40);
    assert !Admits(r, SHORT_SIZE) && r.q[0].complete;
    assert Admits(Free(r), SHORT_SIZE);
    FreeNone(r);
    FreeNext(r, 0);
  }

  /** So a log that gets nothing but such texts is corrupted by one of them. */
  method CorruptLog(log: Log, fields: seq<Byte>)
    requires log.Valid() && !log.busy && log.queue.Layout() == Empty(log.queue.size)
    requires 4 + |fields| == ENTRY_HEAD && 80 <= log.queue.size < log.queue.mem.Length
    modifies log, log.queue, log.queue.mem
    ensures !log.Valid()
  {
    hide Log.Valid, Queue.Valid, Queue.Contents, EvictCount, Accept, Harmless, Shorts, TextAppended, DwordBytes;
    var cap := log.queue.size;
    ShortsStart(cap);
    for k := 0 to cap / 40
      invariant log.Valid() && !log.busy && log.queue.Layout() == Shorts(cap, k)
      invariant log.queue.size == cap < log.queue.mem.Length
    {
      ShortsGrow(cap, k);
      var _ := log.InsertMessage(fields, [0x61, 0x62, 0x63]);
    }
    TerminatorCorrupts(cap);
    var _ := log.InsertMessage(fields, [0x61, 0x62, 0x63]);
  }

  lemma ShortsStart(cap: nat)
    ensures Shorts(cap, 0) == Empty(cap)
  {
  }
}
