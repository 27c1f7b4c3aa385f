/** The transmit buffers of an application (kernel/capifunc.c:633-688): a ring of
    used and a ring of free elements threaded through one table, each ring
    closed by an anchor at the table's front. */
module XBuffer {
  const USED := 0
  const FREE := 1
  const ANCHORS := 2

  datatype Element = Element(next: nat, prev: nat)

  /** Each node of a path is linked to the one after it, both ways. */
  ghost predicate Linked(t: seq<Element>, path: seq<nat>) {
    && (forall k | 0 <= k < |path| :: path[k] < |t|)
    && (forall k | 0 <= k < |path| - 1 :: Link(t, path[k], path[k + 1]))
  }

  ghost predicate Link(t: seq<Element>, a: nat, b: nat) {
    a < |t| && b < |t| && t[a].next == b && t[b].prev == a
  }

  /** The ring of `s` through `anchor`, from the anchor and back to it. */
  function Path(anchor: nat, s: seq<nat>): seq<nat> {
    [anchor] + s + [anchor]
  }

  ghost predicate Distinct(s: seq<nat>) {
    forall j, k | 0 <= j < k < |s| :: s[j] != s[k]
  }

  ghost predicate Ring(t: seq<Element>, anchor: nat, s: seq<nat>) {
    Linked(t, Path(anchor, s)) && Distinct([anchor] + s)
  }

  // ------------------------------------------------- the two pointer surgeries

  function Unlink(t: seq<Element>, i: nat): (t': seq<Element>)
    requires i < |t| && t[i].prev < |t| && t[i].next < |t|
    ensures |t'| == |t|
  {
    var t1 := t[t[i].prev := t[t[i].prev].(next := t[i].next)];
    if t1[i].next < |t| then t1[t1[i].next := t1[t1[i].next].(prev := t1[i].prev)] else t1
  }

  function PushFront(t: seq<Element>, anchor: nat, i: nat): (t': seq<Element>)
    requires i < |t| && anchor < |t| && t[anchor].next < |t|
    ensures |t'| == |t|
  {
    var first := t[anchor].next;
    var t1 := t[i := Element(first, anchor)];
    var t2 := t1[first := t1[first].(prev := i)];
    t2[anchor := t2[anchor].(next := i)]
  }

  lemma Neighbours(t: seq<Element>, anchor: nat, s: seq<nat>, k: nat)
    requires Ring(t, anchor, s) && k < |s|
    ensures s[k] < |t| && s[k] != anchor
    ensures t[s[k]].prev == (if k == 0 then anchor else s[k - 1]) < |t|
    ensures t[s[k]].next == (if k == |s| - 1 then anchor else s[k + 1]) < |t|
  {
    var p := Path(anchor, s);
    assert p[k + 1] == s[k] && Link(t, p[k], p[k + 1]) && Link(t, p[k + 1], p[k + 2]);
    assert ([anchor] + s)[0] != ([anchor] + s)[k + 1];
  }

  lemma UnlinkEffect(t: seq<Element>, i: nat, l: nat, r: nat)
    requires i < |t| && l < |t| && r < |t| && t[i] == Element(r, l) && l != i && r != i
    ensures forall x | 0 <= x < |t| ::
      Unlink(t, i)[x] == Element(if x == l then r else t[x].next, if x == r then l else t[x].prev)
  {
  }

  lemma PathDistinct(anchor: nat, s: seq<nat>, j: nat, k: nat)
    requires Distinct([anchor] + s) && 0 < j < |s| + 2 && 0 < k < |s| + 2 && j != k
    ensures Path(anchor, s)[j] != Path(anchor, s)[k]
  {
    var c, p := [anchor] + s, Path(anchor, s);
    assert j <= |s| ==> p[j] == c[j];
    assert k <= |s| ==> p[k] == c[k];
    assert p[|s| + 1] == c[0];
  }

  lemma UnlinkRing(t: seq<Element>, anchor: nat, s: seq<nat>, k: nat)
    requires Ring(t, anchor, s) && k < |s| && s[k] < |t| && t[s[k]].prev < |t| && t[s[k]].next < |t|
    ensures Ring(Unlink(t, s[k]), anchor, s[..k] + s[k + 1..])
  {
    Neighbours(t, anchor, s, k);
    var t', s' := Unlink(t, s[k]), s[..k] + s[k + 1..];
    var c, p, p' := [anchor] + s, Path(anchor, s), Path(anchor, s');
    var l, i, r := p[k], s[k], p[k + 2];
    assert c[k] == l && c[k + 1] == i;
    UnlinkEffect(t, i, l, r);
    forall m | 0 <= m < |p'| - 1
      ensures Link(t', p'[m], p'[m + 1])
    {
      var q := if m < k then m else m + 1;
      if m == k {
        assert p'[m] == l && p'[m + 1] == r;
      } else {
        assert p'[m] == p[q] == c[q] && p'[m + 1] == p[q + 1];
        assert Link(t, p[q], p[q + 1]);
        assert c[q] != l;
        PathDistinct(anchor, s, q + 1, k + 2);
      }
    }
    forall m | 0 <= m < |p'|
      ensures p'[m] < |t'|
    {
      assert p'[m] == if m <= k then p[m] else p[m + 1];
    }
    forall j, m | 0 <= j < m < |[anchor] + s'|
      ensures ([anchor] + s')[j] != ([anchor] + s')[m]
    {
      var c' := [anchor] + s';
      assert c'[j] == if j <= k then c[j] else c[j + 1];
      assert c'[m] == if m <= k then c[m] else c[m + 1];
    }
  }

  /** A ring whose nodes are none of those rewritten stays as it is. */
  lemma OtherRing(t: seq<Element>, t': seq<Element>, anchor: nat, s: seq<nat>)
    requires Ring(t, anchor, s) && |t'| == |t|
    requires forall x | x in [anchor] + s && x < |t| :: t'[x] == t[x]
    ensures Ring(t', anchor, s)
  {
    var p, c := Path(anchor, s), [anchor] + s;
    forall k | 0 <= k < |p| - 1
      ensures Link(t', p[k], p[k + 1])
    {
      assert Link(t, p[k], p[k + 1]);
      assert p[k] == c[k] && p[k] in c;
      assert p[k + 1] == (if k + 1 < |c| then c[k + 1] else c[0]) && p[k + 1] in c;
    }
  }

  lemma PushRing(t: seq<Element>, anchor: nat, s: seq<nat>, i: nat)
    requires Ring(t, anchor, s) && i < |t| && i !in [anchor] + s && anchor < |t| && t[anchor].next < |t|
    ensures Ring(PushFront(t, anchor, i), anchor, [i] + s)
  {
    var t', p, p', c := PushFront(t, anchor, i), Path(anchor, s), Path(anchor, [i] + s), [anchor] + s;
    assert Link(t, p[0], p[1]);
    forall m | 0 <= m < |p'| - 1
      ensures Link(t', p'[m], p'[m + 1])
    {
      if m == 0 {
        assert p'[1] == i;
      } else if m == 1 {
        assert p'[1] == i && p'[2] == p[1];
      } else {
        assert p'[m] == p[m - 1] == c[m - 1] && p'[m + 1] == p[m];
        assert Link(t, p[m - 1], p[m]);
        assert c[m - 1] in c && p[m] in c;
        PathDistinct(anchor, s, m, 1);
        assert c[m - 1] != c[0];
      }
    }
    forall m | 0 <= m < |p'|
      ensures p'[m] < |t'|
    {
      assert p'[m] == if m == 0 then anchor else if m == 1 then i else p[m - 1];
    }
    var c' := [anchor] + ([i] + s);
    forall j, m | 0 <= j < m < |c'|
      ensures c'[j] != c'[m]
    {
      assert c'[m] == if m == 1 then i else c[m - 1];
      assert j != 1 ==> c'[j] == if j == 0 then c[0] else c[j - 1];
      assert m != 1 ==> c[m - 1] in c;
    }
  }

  // ------------------------------------------------------------- the two rings

  function Without(s: seq<nat>, i: nat): seq<nat> {
    if s == [] then [] else if s[0] == i then s[1..] else [s[0]] + Without(s[1..], i)
  }

  /** Every element is in exactly one of the two rings. */
  ghost predicate Rings(t: seq<Element>, used: seq<nat>, free: seq<nat>) {
    && ANCHORS <= |t| && Ring(t, USED, used) && Ring(t, FREE, free)
    && (forall x | x in used :: x !in free && ANCHORS <= x)
    && (forall x | x in free :: ANCHORS <= x)
    && (forall i | ANCHORS <= i < |t| :: i in used || i in free)
  }

  lemma {:induction false} WithoutAt(s: seq<nat>, k: nat)
    requires Distinct(s) && k < |s|
    ensures Without(s, s[k]) == s[..k] + s[k + 1..]
  {
    if k != 0 {
      var r := s[1..];
      forall i, j | 0 <= i < j < |r|
        ensures r[i] != r[j]
      {
        assert r[i] == s[i + 1] && r[j] == s[j + 1];
      }
      WithoutAt(r, k - 1);
      assert s[..k] == [s[0]] + r[..k - 1] && s[k + 1..] == r[k..];
      assert s[0] != s[k];
    }
  }

  lemma {:induction false} WithoutAbsent(s: seq<nat>, i: nat)
    requires i !in s
    ensures Without(s, i) == s
  {
    if s != [] {
      WithoutAbsent(s[1..], i);
    }
  }

  lemma {:induction false} WithoutMembers(s: seq<nat>, i: nat)
    requires Distinct(s)
    ensures forall x :: x in Without(s, i) <==> x in s && x != i
  {
    if i in s {
      var k :| 0 <= k < |s| && s[k] == i;
      WithoutAt(s, k);
    } else {
      WithoutAbsent(s, i);
    }
  }

  lemma Members(t: seq<Element>, anchor: nat, s: seq<nat>)
    requires Ring(t, anchor, s)
    ensures anchor < |t| && Distinct(s) && anchor !in s && forall x | x in s :: x < |t|
    ensures t[anchor].next == (if s == [] then anchor else s[0]) < |t|
    ensures s != [] ==> s[0] in s
  {
    var p, c := Path(anchor, s), [anchor] + s;
    assert Link(t, p[0], p[1]);
    forall k | 0 <= k < |s|
      ensures s[k] < |t| && s[k] != anchor
    {
      assert p[k + 1] == s[k] && c[k + 1] == s[k] && c[0] != c[k + 1];
    }
    forall j, k | 0 <= j < k < |s|
      ensures s[j] != s[k]
    {
      assert c[j + 1] != c[k + 1];
    }
  }

  /** Taking an element out of whichever ring it is in. */
  lemma UnlinkRings(t: seq<Element>, used: seq<nat>, free: seq<nat>, i: nat)
    requires Rings(t, used, free) && ANCHORS <= i < |t|
    ensures t[i].prev < |t| && t[i].next < |t| && t[i].prev != i
    ensures Ring(Unlink(t, i), USED, Without(used, i)) && Ring(Unlink(t, i), FREE, Without(free, i))
  {
    if i in used {
      UnlinkOne(t, USED, used, FREE, free, i);
    } else {
      UnlinkOne(t, FREE, free, USED, used, i);
    }
  }

  lemma UnlinkOne(t: seq<Element>, anchor: nat, s: seq<nat>, anchor': nat, s': seq<nat>, i: nat)
    requires Ring(t, anchor, s) && Ring(t, anchor', s') && anchor != anchor'
    requires i in s && i !in s' && anchor !in s' && anchor' !in s && forall x | x in s :: x !in s'
    ensures i < |t| && t[i].prev < |t| && t[i].next < |t| && t[i].prev != i
    ensures Ring(Unlink(t, i), anchor, Without(s, i)) && Ring(Unlink(t, i), anchor', Without(s', i))
  {
    var k :| 0 <= k < |s| && s[k] == i;
    Members(t, anchor, s);
    Neighbours(t, anchor, s, k);
    WithoutAt(s, k);
    UnlinkRing(t, anchor, s, k);
    WithoutAbsent(s', i);
    UnlinkEffect(t, i, t[i].prev, t[i].next);
    OtherRing(t, Unlink(t, i), anchor', s');
  }

  function Other(anchor: nat): nat {
    if anchor == USED then FREE else USED
  }

  lemma PushOne(t: seq<Element>, anchor: nat, s: seq<nat>, s': seq<nat>, i: nat)
    requires anchor < ANCHORS && Ring(t, anchor, s) && Ring(t, Other(anchor), s') && ANCHORS <= i < |t|
    requires i !in s && i !in s' && forall x | x in s' :: x !in s && ANCHORS <= x
    requires forall x | x in s :: ANCHORS <= x
    ensures anchor < |t| && t[anchor].next < |t|
    ensures Ring(PushFront(t, anchor, i), anchor, [i] + s) && Ring(PushFront(t, anchor, i), Other(anchor), s')
  {
    Members(t, anchor, s);
    PushRing(t, anchor, s, i);
    forall x | x in [Other(anchor)] + s' && x < |t|
      ensures PushFront(t, anchor, i)[x] == t[x]
    {
      assert x == Other(anchor) || x in s';
    }
    OtherRing(t, PushFront(t, anchor, i), Other(anchor), s');
  }

  lemma MoveRings(t: seq<Element>, used: seq<nat>, free: seq<nat>, i: nat, anchor: nat)
    requires Rings(t, used, free) && ANCHORS <= i < |t| && anchor < ANCHORS
    ensures t[i].prev < |t| && t[i].next < |t| && t[i].prev != i && Unlink(t, i)[anchor].next < |t|
    ensures var t' := PushFront(Unlink(t, i), anchor, i);
      if anchor == USED then Rings(t', [i] + Without(used, i), Without(free, i))
      else Rings(t', Without(used, i), [i] + Without(free, i))
  {
    hide Ring, Unlink, PushFront, Without;
    Members(t, USED, used);
    Members(t, FREE, free);
    UnlinkRings(t, used, free, i);
    WithoutMembers(used, i);
    WithoutMembers(free, i);
    if anchor == USED {
      PushOne(Unlink(t, i), anchor, Without(used, i), Without(free, i), i);
    } else {
      PushOne(Unlink(t, i), anchor, Without(free, i), Without(used, i), i);
    }
  }

  // ---------------------------------------------------------------- the sizes

  function Numbers(n: nat): (s: set<nat>)
    ensures |s| == n && forall i: nat :: i in s <==> ANCHORS <= i < ANCHORS + n
  {
    if n == 0 then {} else Numbers(n - 1) + {ANCHORS + n - 1}
  }

  function Elements(s: seq<nat>): set<nat> {
    set x | x in s
  }

  lemma {:induction false} DistinctSize(s: seq<nat>)
    requires Distinct(s)
    ensures |Elements(s)| == |s|
  {
    if s != [] {
      var m := |s| - 1;
      DistinctSize(s[..m]);
      assert Elements(s) == Elements(s[..m]) + {s[m]};
    }
  }

  /** No buffer is ever lost or counted twice. */
  lemma SizesAdd(t: seq<Element>, used: seq<nat>, free: seq<nat>)
    requires Rings(t, used, free)
    ensures |used| + |free| == |t| - ANCHORS
  {
    hide Ring, Distinct;
    Members(t, USED, used);
    Members(t, FREE, free);
    DistinctSize(used);
    DistinctSize(free);
    assert Elements(used) + Elements(free) == Numbers(|t| - ANCHORS);
    assert Elements(used) !! Elements(free);
  }

  /** next and prev undo one another all over the table. */
  lemma MutualInverses(t: seq<Element>, used: seq<nat>, free: seq<nat>, i: nat)
    requires Rings(t, used, free) && i < |t|
    ensures t[i].next < |t| && t[t[i].next].prev == i
    ensures t[i].prev < |t| && t[t[i].prev].next == i
  {
    if i < ANCHORS {
      RingInverse(t, i, if i == USED then used else free, 0);
    } else if i in used {
      var k :| 0 <= k < |used| && used[k] == i;
      RingInverse(t, USED, used, k + 1);
    } else {
      var k :| 0 <= k < |free| && free[k] == i;
      RingInverse(t, FREE, free, k + 1);
    }
  }

  lemma RingInverse(t: seq<Element>, anchor: nat, s: seq<nat>, k: nat)
    requires Ring(t, anchor, s) && k <= |s|
    ensures var i := Path(anchor, s)[k];
      i < |t| && t[i].next < |t| && t[t[i].next].prev == i && t[i].prev < |t| && t[t[i].prev].next == i
  {
    var p := Path(anchor, s);
    assert Link(t, p[k], p[k + 1]);
    var j := if k == 0 then |s| + 1 else k;
    assert p[j] == p[k] && Link(t, p[j - 1], p[j]);
  }

  // --------------------------------------------------------------- the program

  class BufferTable {
    const t: array<Element>
    ghost var used: seq<nat>
    ghost var free: seq<nat>

    ghost predicate Valid()
      reads this, t
    {
      Rings(t[..], used, free)
    }

    /** `XBufferInit`: all elements free, in ascending order. */
    constructor (n: nat)
      ensures Valid() && t.Length == n + ANCHORS && used == [] && |free| == n && fresh(t)
    {
      var a := new Element[n + ANCHORS](_ => Element(0, 0));
      a[USED] := Element(USED, USED);
      a[FREE] := Element(FREE, FREE);
      ghost var s: seq<nat> := [];
      StartRings(a[..]);
      for i := 0 to n
        invariant |s| == i && forall k | 0 <= k < i :: s[k] == ANCHORS + k
        invariant Ring(a[..], USED, []) && Ring(a[..], FREE, s)
        modifies a
      {
        ghost var t0 := a[..];
        LastOf(t0, FREE, s);
        a[ANCHORS + i] := Element(a[ANCHORS + i].next, a[FREE].prev);
        a[ANCHORS + i] := Element(FREE, a[ANCHORS + i].prev);
        a[a[FREE].prev] := Element(ANCHORS + i, a[a[FREE].prev].prev);
        a[FREE] := Element(a[FREE].next, ANCHORS + i);
        AppendRing(t0, a[..], s, ANCHORS + i);
        s := s + [ANCHORS + i];
      }
      t := a;
      used, free := [], s;
      new;
      forall i | ANCHORS <= i < |t[..]|
        ensures i in s
      {
        assert s[i - ANCHORS] == i;
      }
    }

    /** `XBufferAlloc`, on a free element or on one already used. */
    method Alloc(e: nat)
      requires Valid() && e + ANCHORS < t.Length
      modifies this, t
      ensures Valid()
      ensures used == [e + ANCHORS] + Without(old(used), e + ANCHORS) && free == Without(old(free), e + ANCHORS)
    {
      MoveRings(t[..], used, free, e + ANCHORS, USED);
      Move(e + ANCHORS, USED);
      used, free := [e + ANCHORS] + Without(used, e + ANCHORS), Without(free, e + ANCHORS);
    }

    /** `XBufferFree`, likewise. */
    method Free(e: nat)
      requires Valid() && e + ANCHORS < t.Length
      modifies this, t
      ensures Valid()
      ensures free == [e + ANCHORS] + Without(old(free), e + ANCHORS) && used == Without(old(used), e + ANCHORS)
    {
      MoveRings(t[..], used, free, e + ANCHORS, FREE);
      Move(e + ANCHORS, FREE);
      used, free := Without(used, e + ANCHORS), [e + ANCHORS] + Without(free, e + ANCHORS);
    }

    /** The six stores that both functions make. */
    method Move(i: nat, anchor: nat)
      requires i < t.Length && anchor < t.Length && t[i].prev < t.Length && t[i].next < t.Length
      requires Unlink(t[..], i)[anchor].next < t.Length && t[i].prev != i
      modifies t
      ensures t[..] == PushFront(Unlink(old(t[..]), i), anchor, i)
    {
      ghost var t0 := t[..];
      t[t[i].prev] := Element(t[i].next, t[t[i].prev].prev);
      t[t[i].next] := Element(t[t[i].next].next, t[i].prev);
      assert t[..] == Unlink(t0, i);
      t[i] := Element(t[anchor].next, t[i].prev);
      t[i] := Element(t[i].next, anchor);
      t[t[anchor].next] := Element(t[t[anchor].next].next, i);
      t[anchor] := Element(i, t[anchor].prev);
    }

    /** `XBufferNext`: a free element, or a negative number if there is none. */
    method Next() returns (i: int)
      requires Valid()
      ensures i < 0 <==> free == []
      ensures 0 <= i ==> i + ANCHORS in free && i + ANCHORS == free[0]
    {
      Members(t[..], FREE, free);
      i := t[FREE].next - ANCHORS;
    }
  }

  lemma StartRings(t: seq<Element>)
    requires ANCHORS <= |t| && t[USED] == Element(USED, USED) && t[FREE] == Element(FREE, FREE)
    ensures Ring(t, USED, []) && Ring(t, FREE, [])
  {
    assert Path(USED, []) == [USED, USED] && Path(FREE, []) == [FREE, FREE];
    assert Link(t, USED, USED) && Link(t, FREE, FREE);
  }

  lemma LastOf(t: seq<Element>, anchor: nat, s: seq<nat>)
    requires Ring(t, anchor, s)
    ensures anchor < |t| && t[anchor].prev == (if s == [] then anchor else s[|s| - 1]) < |t|
  {
    var p := Path(anchor, s);
    assert Link(t, p[|s|], p[|s| + 1]);
  }

  /** Linking a new element in at the end of the free ring. */
  lemma AppendRing(t: seq<Element>, t': seq<Element>, s: seq<nat>, i: nat)
    requires Ring(t, USED, []) && Ring(t, FREE, s) && |t'| == |t| && ANCHORS <= i < |t|
    requires forall k | 0 <= k < |s| :: s[k] == ANCHORS + k < i
    requires var l := if s == [] then FREE else s[|s| - 1];
      && t'[i] == Element(FREE, l) && t'[l].next == i && t'[FREE].prev == i
      && (forall x | 0 <= x < |t| && x != i && x != l :: t'[x].next == t[x].next)
      && (forall x | 0 <= x < |t| && x != i && x != FREE :: t'[x].prev == t[x].prev)
    ensures Ring(t', USED, []) && Ring(t', FREE, s + [i])
  {
    OtherRing(t, t', USED, []);
    var p, p', c := Path(FREE, s), Path(FREE, s + [i]), [FREE] + s;
    forall m | 0 <= m < |p'| - 1
      ensures Link(t', p'[m], p'[m + 1])
    {
      if m < |s| {
        assert Link(t, p[m], p[m + 1]);
        assert p'[m] == p[m] == c[m] && p'[m + 1] == p[m + 1] == c[m + 1];
        assert c[m] != c[|s|] && c[0] != c[m + 1];
      }
    }
    forall m | 0 <= m < |p'|
      ensures p'[m] < |t'|
    {
      assert p'[m] == if m <= |s| then p[m] else if m == |s| + 1 then i else FREE;
    }
  }
}
