/** Where the messages of the MAINT queue lie (kernel/debug.c:118-226): a ring of
    variable-length regions that moves a wrap mark instead of splitting one.
    Addresses are offsets from the queue's base; a wrap mark of 0 means none. */
module MsgRing {
  const HEAD := 4               // sizeof(MSG_HEAD)
  const INCOMPLETE := 0x8000

  type Size = n: nat | n < INCOMPLETE

  /** One message: where its header is, the size of its data, and whether its
      writer has completed it. */
  datatype Entry = Entry(at: nat, size: Size, complete: bool)

  /** The five pointers of MSG_QUEUE and the messages they describe. */
  datatype Ring = Ring(cap: nat, head: nat, tail: nat, wrap: nat, q: seq<Entry>)

  function Need(size: Size): (n: nat)
    ensures HEAD + size <= n < HEAD + size + 4 && n % 4 == 0
  {
    (HEAD + size + 3) / 4 * 4
  }

  /** The messages lie one after the other from `from` up to `to`. */
  predicate Chain(q: seq<Entry>, from: nat, to: nat) {
    if q == [] then from == to else q[0].at == from && Chain(q[1..], from + Need(q[0].size), to)
  }

  /** `k` messages lie before the wrap mark and the rest from the base. */
  ghost predicate WrappedAt(r: Ring, k: nat) {
    && 0 < k < |r.q|
    && Chain(r.q[..k], r.head, r.wrap) && Chain(r.q[k..], 0, r.tail)
  }

  ghost predicate WellFormed(r: Ring) {
    if r.wrap == 0 then
      && Chain(r.q, r.head, r.tail) && r.tail <= r.cap
      && (r.q == [] ==> r.head == 0)
    else
      && r.tail <= r.head && r.wrap <= r.cap
      && exists k: nat :: WrappedAt(r, k)
  }

  // ---------------------------------------------------------- the operations

  function Empty(cap: nat): Ring {
    Ring(cap, 0, 0, 0, [])
  }

  /** Whether the next message can be placed, and after which adjustment. */
  predicate Admits(r: Ring, size: Size) {
    var need := Need(size);
    if r.tail == r.head then r.wrap == 0 && need <= r.cap
    else if r.tail > r.head then r.tail + need <= r.cap || need <= r.head
    else r.tail + need <= r.head
  }

  function Place(r: Ring, size: Size): nat {
    if r.tail > r.head && r.tail + Need(size) > r.cap then 0 else r.tail
  }

  function Alloc(r: Ring, size: Size): Ring {
    var at := Place(r, size);
    Ring(r.cap, r.head, at + Need(size), if at == r.tail then r.wrap else r.tail,
         r.q + [Entry(at, size, false)])
  }

  function Free(r: Ring): Ring
    requires r.q != []
  {
    var head := r.head + Need(r.q[0].size);
    if r.wrap != 0 then
      if head >= r.wrap then Ring(r.cap, 0, r.tail, 0, r.q[1..]) else r.(head := head, q := r.q[1..])
    else
      if head >= r.tail then Ring(r.cap, 0, 0, 0, r.q[1..]) else r.(head := head, q := r.q[1..])
  }

  function Complete(r: Ring, i: nat): Ring
    requires i < |r.q|
  {
    r.(q := r.q[i := r.q[i].(complete := true)])
  }

  // ------------------------------------------------------------------- chains

  lemma {:induction false} ChainAppend(a: seq<Entry>, b: seq<Entry>, from: nat, mid: nat, to: nat)
    requires Chain(a, from, mid) && Chain(b, mid, to)
    ensures Chain(a + b, from, to)
  {
    if a == [] {
      assert a + b == b;
    } else {
      assert (a + b)[1..] == a[1..] + b;
      ChainAppend(a[1..], b, from + Need(a[0].size), mid, to);
    }
  }

  /** Every message of a chain lies within it, and they are disjoint in order. */
  lemma {:induction false} ChainRange(q: seq<Entry>, from: nat, to: nat)
    requires Chain(q, from, to)
    ensures from + HEAD * |q| <= to
    ensures forall e | e in q :: from <= e.at && e.at + Need(e.size) <= to
    ensures forall i, j | 0 <= i < j < |q| :: q[i].at + Need(q[i].size) <= q[j].at
  {
    if q != [] {
      ChainRange(q[1..], from + Need(q[0].size), to);
      forall e | e in q
        ensures from <= e.at && e.at + Need(e.size) <= to
      {
        assert e == q[0] || e in q[1..];
      }
      forall i, j | 0 <= i < j < |q|
        ensures q[i].at + Need(q[i].size) <= q[j].at
      {
        assert q[j] == q[1..][j - 1] && q[1..][j - 1] in q[1..];
        if 0 < i {
          assert q[i] == q[1..][i - 1];
        }
      }
    }
  }

  lemma {:induction false} ChainEnd(q: seq<Entry>, from: nat, to: nat)
    requires Chain(q, from, to) && q != []
    ensures q[|q| - 1].at + Need(q[|q| - 1].size) == to
  {
    if |q| > 1 {
      ChainEnd(q[1..], from + Need(q[0].size), to);
    }
  }

  lemma LastEnds(r: Ring)
    requires WellFormed(r) && r.q != []
    ensures var e := r.q[|r.q| - 1]; e.at + Need(e.size) == r.tail
  {
    if r.wrap == 0 {
      ChainEnd(r.q, r.head, r.tail);
    } else {
      var k: nat :| WrappedAt(r, k);
      ChainEnd(r.q[k..], 0, r.tail);
    }
  }

  /** A chain depends on places and sizes only. */
  lemma {:induction false} ChainComplete(q: seq<Entry>, from: nat, to: nat, i: nat)
    requires Chain(q, from, to) && i < |q|
    ensures Chain(q[i := q[i].(complete := true)], from, to)
  {
    var q' := q[i := q[i].(complete := true)];
    if i == 0 {
      assert q'[1..] == q[1..];
    } else {
      assert q'[1..] == q[1..][i - 1 := q[1..][i - 1].(complete := true)];
      ChainComplete(q[1..], from + Need(q[0].size), to, i - 1);
    }
  }

  // ------------------------------------------------------- what they preserve

  lemma AllocWellFormed(r: Ring, size: Size)
    requires WellFormed(r) && Admits(r, size)
    ensures WellFormed(Alloc(r, size))
  {
    var r', at, new' := Alloc(r, size), Place(r, size), [Entry(Place(r, size), size, false)];
    assert new'[1..] == [];
    assert Chain(new', at, at + Need(size));
    if r.wrap == 0 {
      ChainRange(r.q, r.head, r.tail);
      if at == r.tail {
        ChainAppend(r.q, new', r.head, r.tail, r'.tail);
      } else {
        assert r'.q[..|r.q|] == r.q && r'.q[|r.q|..] == new';
        assert WrappedAt(r', |r.q|);
      }
    } else {
      var k: nat :| WrappedAt(r, k);
      assert r'.q[..k] == r.q[..k] && r'.q[k..] == r.q[k..] + new';
      ChainAppend(r.q[k..], new', 0, r.tail, r'.tail);
      assert WrappedAt(r', k);
    }
  }

  lemma FreeWellFormed(r: Ring)
    requires WellFormed(r) && r.q != []
    ensures WellFormed(Free(r)) && r.q[0].at == r.head
  {
    if r.wrap == 0 {
      ChainRange(r.q[1..], r.head + Need(r.q[0].size), r.tail);
    } else {
      var k: nat :| WrappedAt(r, k);
      FreeWrapped(r, k);
    }
  }

  lemma FreeWrapped(r: Ring, k: nat)
    requires WellFormed(r) && r.q != [] && r.wrap != 0 && WrappedAt(r, k)
    ensures WellFormed(Free(r)) && r.q[0].at == r.head
  {
    assert r.q[..k][1..] == r.q[1..][..k - 1];
    assert r.q[k..] == r.q[1..][k - 1..];
    ChainRange(r.q[..k][1..], r.head + Need(r.q[0].size), r.wrap);
    if k == 1 {
      assert r.q[1..] == r.q[k..];
    } else {
      assert WrappedAt(Free(r), k - 1);
    }
  }

  lemma CompleteWellFormed(r: Ring, i: nat)
    requires WellFormed(r) && i < |r.q|
    ensures WellFormed(Complete(r, i))
  {
    var r' := Complete(r, i);
    if r.wrap == 0 {
      ChainComplete(r.q, r.head, r.tail, i);
    } else {
      var k: nat :| WrappedAt(r, k);
      if i < k {
        ChainComplete(r.q[..k], r.head, r.wrap, i);
        assert r'.q[..k] == r.q[..k][i := r.q[..k][i].(complete := true)] && r'.q[k..] == r.q[k..];
      } else {
        ChainComplete(r.q[k..], 0, r.tail, i - k);
        assert r'.q[k..] == r.q[k..][i - k := r.q[k..][i - k].(complete := true)] && r'.q[..k] == r.q[..k];
      }
      assert WrappedAt(r', k);
    }
  }

  predicate Disjoint(a: Entry, b: Entry) {
    a.at + Need(a.size) <= b.at || b.at + Need(b.size) <= a.at
  }

  /** The regions of the queued messages lie in the buffer, whole and apart. */
  lemma RegionsDisjoint(r: Ring)
    requires WellFormed(r)
    ensures forall e | e in r.q :: e.at + Need(e.size) <= r.cap
    ensures forall i, j | 0 <= i < j < |r.q| :: Disjoint(r.q[i], r.q[j])
  {
    if r.wrap == 0 {
      ChainRange(r.q, r.head, r.tail);
    } else {
      var k: nat :| WrappedAt(r, k);
      var a, b := r.q[..k], r.q[k..];
      ChainRange(a, r.head, r.wrap);
      ChainRange(b, 0, r.tail);
      forall e | e in r.q
        ensures e.at + Need(e.size) <= r.cap
      {
        assert e in a || e in b;
      }
      forall i, j | 0 <= i < j < |r.q|
        ensures Disjoint(r.q[i], r.q[j])
      {
        if j < k {
          assert r.q[i] == a[i] && r.q[j] == a[j];
        } else if k <= i {
          assert r.q[i] == b[i - k] && r.q[j] == b[j - k];
        } else {
          assert r.q[i] == a[i] && a[i] in a && r.q[j] == b[j - k] && b[j - k] in b;
        }
      }
    }
  }

  // ------------------------------------------------------- where there is room

  /** A place for a message: behind the last one or, without a wrap mark, at the
      base; whole, and apart from every message that is queued. */
  predicate Vacant(r: Ring, size: Size, at: nat) {
    && (at == r.tail || (at == 0 && r.wrap == 0))
    && at + Need(size) <= r.cap
    && forall e | e in r.q :: Disjoint(Entry(at, size, false), e)
  }

  lemma VacantUnwrapped(r: Ring, size: Size)
    requires WellFormed(r) && r.wrap == 0
    ensures r.head <= r.tail && (Vacant(r, size, r.tail) <==> r.tail + Need(size) <= r.cap)
    ensures r.q != [] ==> (Vacant(r, size, 0) <==> Need(size) <= r.head)
  {
    ChainRange(r.q, r.head, r.tail);
    if r.q != [] {
      assert r.q[0] in r.q && r.q[0].at == r.head;
    }
  }

  lemma VacantWrapped(r: Ring, size: Size)
    requires WellFormed(r) && r.wrap != 0
    ensures Vacant(r, size, r.tail) <==> r.tail + Need(size) <= r.head
  {
    var k: nat :| WrappedAt(r, k);
    var a, b := r.q[..k], r.q[k..];
    ChainRange(a, r.head, r.wrap);
    ChainRange(b, 0, r.tail);
    assert a[0] == r.q[0] && a[0] in r.q && a[0].at == r.head;
    forall e | e in r.q
      ensures e in a || e in b
    {
      assert r.q == a + b;
    }
  }

  /** A message is admitted if and only if there is a place for it; it gets the
      one behind the last message if that is large enough. */
  lemma AdmitsIfRoom(r: Ring, size: Size)
    requires WellFormed(r)
    ensures Admits(r, size) <==> exists at: nat :: Vacant(r, size, at)
    ensures Admits(r, size) ==> Vacant(r, size, Place(r, size))
    ensures Vacant(r, size, r.tail) ==> Place(r, size) == r.tail
  {
    hide Vacant;
    EmptyOrFull(r);
    VacantPlaces(r, size);
    if r.wrap == 0 {
      VacantUnwrapped(r, size);
    } else {
      VacantWrapped(r, size);
    }
  }

  lemma VacantPlaces(r: Ring, size: Size)
    ensures forall at: nat :: Vacant(r, size, at) ==> at == r.tail || (at == 0 && r.wrap == 0)
  {
  }

  /** Two states that empty pointers tell apart: equal head and tail mean an
      empty queue without a wrap mark and a completely full one with it. */
  lemma EmptyOrFull(r: Ring)
    requires WellFormed(r)
    ensures r.q == [] <==> r.head == r.tail && r.wrap == 0
    ensures r.q == [] ==> r == Empty(r.cap)
    ensures r.wrap != 0 ==> 0 < r.tail
  {
    if r.wrap == 0 {
      ChainRange(r.q, r.head, r.tail);
    } else {
      var k: nat :| WrappedAt(r, k);
      ChainRange(r.q[k..], 0, r.tail);
    }
  }

  // ----------------------------------------------------------------- eviction

  function FreeN(r: Ring, n: nat): (r': Ring)
    requires n <= |r.q|
    ensures r'.q == r.q[n..] && r'.cap == r.cap
  {
    if n == 0 then r else Free(FreeN(r, n - 1))
  }

  /** Frees complete messages from the head until the new one can be placed. */
  function EvictCount(r: Ring, size: Size): (n: nat)
    ensures n <= |r.q|
    decreases |r.q|
  {
    if Admits(r, size) || r.q == [] || !r.q[0].complete then 0 else 1 + EvictCount(Free(r), size)
  }

  lemma {:induction false} FreeNWellFormed(r: Ring, n: nat)
    requires WellFormed(r) && n <= |r.q|
    ensures WellFormed(FreeN(r, n))
  {
    if n != 0 {
      FreeNWellFormed(r, n - 1);
      FreeWellFormed(FreeN(r, n - 1));
    }
  }

  lemma {:induction false} FreeNShift(r: Ring, n: nat)
    requires n < |r.q|
    ensures FreeN(r, n + 1) == FreeN(Free(r), n)
  {
    if n != 0 {
      FreeNShift(r, n - 1);
    }
  }

  lemma FreeDropsHead(r: Ring)
    requires r.q != []
    ensures Free(r).q == r.q[1..]
  {
  }

  lemma FreeNone(r: Ring)
    ensures FreeN(r, 0) == r
  {
  }

  lemma FreeNext(r: Ring, n: nat)
    requires n < |r.q|
    ensures FreeN(r, n + 1) == Free(FreeN(r, n))
  {
  }

  lemma AllocLast(r: Ring, size: Size)
    ensures var q := Alloc(r, size).q; q != [] && q[|q| - 1].at == Place(r, size)
  {
  }

  lemma EvictionStops(r: Ring, size: Size)
    requires Admits(r, size) || r.q == [] || !r.q[0].complete
    ensures EvictCount(r, size) == 0
  {
  }

  /** One turn of the evicting loop. */
  lemma EvictionStep(r: Ring, size: Size, n: nat)
    requires n < |r.q| && !Admits(FreeN(r, n), size) && r.q[n].complete
    ensures EvictCount(FreeN(r, n), size) == 1 + EvictCount(FreeN(r, n + 1), size)
  {
  }

  /** The loop stops at the first suffix that admits the message, which is the
      longest one, or at a message that its writer has not completed. */
  lemma {:induction false} LongestSuffix(r: Ring, size: Size)
    ensures var n := EvictCount(r, size);
      && (forall m | 0 <= m < n :: !Admits(FreeN(r, m), size) && r.q[m].complete)
      && (Admits(FreeN(r, n), size) || n == |r.q| || !r.q[n].complete)
    decreases |r.q|
  {
    hide Admits, Free;
    if !Admits(r, size) && r.q != [] && r.q[0].complete {
      FreeDropsHead(r);
      LongestSuffix(Free(r), size);
      var n := EvictCount(Free(r), size);
      FreeNShift(r, n);
      forall m | 0 <= m < n + 1
        ensures !Admits(FreeN(r, m), size) && r.q[m].complete
      {
        if 0 < m {
          FreeNShift(r, m - 1);
          assert r.q[m] == Free(r).q[m - 1];
        }
      }
    }
  }

  lemma AdmitsFits(r: Ring, size: Size)
    requires WellFormed(r) && Admits(r, size)
    ensures Need(size) <= r.cap
  {
    if r.wrap == 0 {
      ChainRange(r.q, r.head, r.tail);
    } else {
      var k: nat :| WrappedAt(r, k);
      ChainRange(r.q[..k], r.head, r.wrap);
    }
  }

  /** With every message complete, the insertion fails exactly when the message
      could not be placed even in an empty queue; then nothing is left queued. */
  lemma EvictionSucceeds(r: Ring, size: Size)
    requires WellFormed(r) && forall e | e in r.q :: e.complete
    ensures var n := EvictCount(r, size);
      && (Admits(FreeN(r, n), size) <==> Need(size) <= r.cap)
      && (r.cap < Need(size) ==> n == |r.q|)
  {
    var n := EvictCount(r, size);
    forall m | 0 <= m < |r.q|
      ensures r.q[m].complete
    {
      assert r.q[m] in r.q;
    }
    LongestSuffix(r, size);
    FreeNWellFormed(r, n);
    if Admits(FreeN(r, n), size) {
      AdmitsFits(FreeN(r, n), size);
    } else {
      EmptyOrFull(FreeN(r, n));
    }
  }
}
