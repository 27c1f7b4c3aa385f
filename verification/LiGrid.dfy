/** The line interconnect as values: which channels each adapter owns, and the
    square tables that relate every channel to every other. */
module LiGrid {
  import opened Words

  datatype Adapter = Adapter(live: bool, base: nat, channels: nat)

  const NO_ADAPTER := Adapter(false, 0, 0)

  /** Channels of the live adapters together. */
  function Sum(ads: seq<Adapter>): nat {
    if ads == [] then 0 else Sum(ads[..|ads| - 1]) + Owned(ads[|ads| - 1])
  }

  function Owned(a: Adapter): nat {
    if a.live then a.channels else 0
  }

  /** The live adapters' intervals follow one another in index order and leave
      no gap up to `total`. */
  ghost predicate Tiled(ads: seq<Adapter>, total: nat) {
    && (forall i | 0 <= i < |ads| && ads[i].live :: ads[i].base == Sum(ads[..i]))
    && total == Sum(ads)
  }

  /** Where a new adapter's channels go: behind the last live one before it. */
  function NewBase(ads: seq<Adapter>, id: nat): nat
    requires id <= |ads|
  {
    if id == 0 then 0
    else if ads[id - 1].live then ads[id - 1].base + ads[id - 1].channels
    else NewBase(ads, id - 1)
  }

  function Add(ads: seq<Adapter>, id: nat, channels: nat): (ads': seq<Adapter>)
    requires id < |ads|
    ensures |ads'| == |ads|
  {
    seq(|ads|, i requires 0 <= i < |ads| =>
      if i == id then Adapter(true, NewBase(ads, id), channels)
      else if id < i && ads[i].live then ads[i].(base := ads[i].base + channels)
      else ads[i])
  }

  function Remove(ads: seq<Adapter>, id: nat): (ads': seq<Adapter>)
    requires id < |ads|
    requires forall i | id < i < |ads| && ads[i].live :: ads[id].channels <= ads[i].base
    ensures |ads'| == |ads|
  {
    seq(|ads|, i requires 0 <= i < |ads| =>
      if i == id then NO_ADAPTER
      else if id < i && ads[i].live then ads[i].(base := ads[i].base - ads[id].channels)
      else ads[i])
  }

  // -------------------------------------------------------------------- tiling

  lemma {:induction false} SumPrefix(ads: seq<Adapter>, i: nat, j: nat)
    requires i <= j <= |ads|
    ensures Sum(ads[..i]) <= Sum(ads[..j])
    ensures i < j && ads[i].live ==> Sum(ads[..i]) + ads[i].channels <= Sum(ads[..j])
    decreases j
  {
    if i < j {
      SumPrefix(ads, i, j - 1);
      assert ads[..j][..j - 1] == ads[..j - 1];
    }
  }

  /** Two sequences alike except at `id` differ in their sums by what differs there. */
  lemma {:induction false} SumChange(ads: seq<Adapter>, ads': seq<Adapter>, id: nat, n: nat)
    requires |ads| == |ads'| && id < |ads| && n <= |ads|
    requires forall i | 0 <= i < |ads| && i != id :: Owned(ads'[i]) == Owned(ads[i])
    ensures Sum(ads'[..n]) + (if id < n then Owned(ads[id]) else 0)
         == Sum(ads[..n]) + (if id < n then Owned(ads'[id]) else 0)
    decreases n
  {
    if n != 0 {
      SumChange(ads, ads', id, n - 1);
      assert ads[..n][..n - 1] == ads[..n - 1] && ads'[..n][..n - 1] == ads'[..n - 1];
    }
  }

  lemma {:induction false} NewBaseSum(ads: seq<Adapter>, id: nat, total: nat)
    requires Tiled(ads, total) && id <= |ads|
    ensures NewBase(ads, id) == Sum(ads[..id])
  {
    if id != 0 {
      assert ads[..id][..id - 1] == ads[..id - 1];
      if !ads[id - 1].live {
        NewBaseSum(ads, id - 1, total);
      }
    }
  }

  lemma AddTiled(ads: seq<Adapter>, id: nat, channels: nat, total: nat)
    requires Tiled(ads, total) && id < |ads| && !ads[id].live
    ensures Tiled(Add(ads, id, channels), total + channels)
    ensures NewBase(ads, id) <= total
  {
    var ads' := Add(ads, id, channels);
    NewBaseSum(ads, id, total);
    SumPrefix(ads, id, |ads|);
    assert ads[..|ads|] == ads && ads'[..|ads|] == ads';
    SumChange(ads, ads', id, |ads|);
    forall i | 0 <= i < |ads'| && ads'[i].live
      ensures ads'[i].base == Sum(ads'[..i])
    {
      SumChange(ads, ads', id, i);
    }
  }

  lemma RemoveFits(ads: seq<Adapter>, id: nat, total: nat)
    requires Tiled(ads, total) && id < |ads| && ads[id].live
    ensures forall i | id < i < |ads| && ads[i].live :: ads[id].base + ads[id].channels <= ads[i].base
    ensures ads[id].base + ads[id].channels <= total
  {
    forall i | id < i < |ads| && ads[i].live
      ensures ads[id].base + ads[id].channels <= ads[i].base
    {
      SumPrefix(ads, id, i);
    }
    SumPrefix(ads, id, |ads|);
    assert ads[..|ads|] == ads;
  }

  lemma RemoveTiled(ads: seq<Adapter>, id: nat, total: nat)
    requires Tiled(ads, total) && id < |ads| && ads[id].live && ads[id].channels <= total
    requires forall i | id < i < |ads| && ads[i].live :: ads[id].channels <= ads[i].base
    ensures Tiled(Remove(ads, id), total - ads[id].channels)
  {
    var ads' := Remove(ads, id);
    assert ads[..|ads|] == ads && ads'[..|ads|] == ads';
    SumChange(ads, ads', id, |ads|);
    forall i | 0 <= i < |ads'| && ads'[i].live
      ensures ads'[i].base == Sum(ads'[..i])
    {
      SumChange(ads, ads', id, i);
    }
  }

  // --------------------------------------------------------------- the tables

  function Insert<T>(s: seq<T>, base: nat, n: nat, v: T): (s': seq<T>)
    requires base <= |s|
    ensures |s'| == |s| + n
  {
    s[..base] + seq(n, _ => v) + s[base..]
  }

  function Delete<T>(s: seq<T>, base: nat, n: nat): (s': seq<T>)
    requires base + n <= |s|
    ensures |s'| == |s| - n
  {
    s[..base] + s[base + n..]
  }

  lemma DeleteInsert<T>(s: seq<T>, base: nat, n: nat, v: T)
    requires base <= |s|
    ensures Delete(Insert(s, base, n, v), base, n) == s
  {
  }

  /** One square table, by rows. */
  type Square = seq<seq<Byte>>

  ghost predicate IsSquare(m: Square) {
    forall i | 0 <= i < |m| :: |m[i]| == |m|
  }

  function InsertColumns(m: Square, base: nat, n: nat): (m': Square)
    requires forall i | 0 <= i < |m| :: base <= |m[i]|
    ensures |m'| == |m| && forall i | 0 <= i < |m| :: m'[i] == Insert<Byte>(m[i], base, n, 0)
  {
    seq(|m|, i requires 0 <= i < |m| => Insert<Byte>(m[i], base, n, 0))
  }

  function DeleteColumns(m: Square, base: nat, n: nat): (m': Square)
    requires forall i | 0 <= i < |m| :: base + n <= |m[i]|
    ensures |m'| == |m| && forall i | 0 <= i < |m| :: m'[i] == Delete(m[i], base, n)
  {
    seq(|m|, i requires 0 <= i < |m| => Delete(m[i], base, n))
  }

  /** New rows and new columns of zeroes at `base`. */
  ghost function InsertSquare(m: Square, base: nat, n: nat): (m': Square)
    requires IsSquare(m) && base <= |m|
    ensures IsSquare(m') && |m'| == |m| + n
  {
    Insert(InsertColumns(m, base, n), base, n, seq(|m| + n, _ => 0))
  }

  ghost function DeleteSquare(m: Square, base: nat, n: nat): (m': Square)
    requires IsSquare(m) && base + n <= |m|
    ensures IsSquare(m') && |m'| == |m| - n
  {
    DeleteColumns(Delete(m, base, n), base, n)
  }

  lemma DeleteInsertSquare(m: Square, base: nat, n: nat)
    requires IsSquare(m) && base <= |m|
    ensures DeleteSquare(InsertSquare(m, base, n), base, n) == m
  {
    DeleteInsert(InsertColumns(m, base, n), base, n, seq(|m| + n, _ => 0));
    var m' := DeleteSquare(InsertSquare(m, base, n), base, n);
    forall i | 0 <= i < |m|
      ensures m'[i] == m[i]
    {
      DeleteInsert<Byte>(m[i], base, n, 0);
    }
  }

  /** Where position `i` goes when `n` positions open up or close at `base`. */
  function Up(i: nat, base: nat, n: nat): nat {
    if i < base then i else i + n
  }

  lemma InsertSquareEntries(m: Square, base: nat, n: nat)
    requires IsSquare(m) && base <= |m|
    ensures var m' := InsertSquare(m, base, n);
      && (forall i, j | 0 <= i < |m| && 0 <= j < |m| :: m'[Up(i, base, n)][Up(j, base, n)] == m[i][j])
      && (forall i, j | 0 <= i < |m'| && 0 <= j < |m'| && (base <= i < base + n || base <= j < base + n) ::
            m'[i][j] == 0)
  {
  }

  lemma DeleteSquareEntries(m: Square, base: nat, n: nat)
    requires IsSquare(m) && base + n <= |m|
    ensures var m' := DeleteSquare(m, base, n);
      forall i, j | 0 <= i < |m'| && 0 <= j < |m'| :: m'[i][j] == m[Up(i, base, n)][Up(j, base, n)]
  {
  }

  // ------------------------------------------------------------------ the runs

  /** Everything the interconnect keeps: who owns which channels, what is known
      of each channel, and the flags and coefficients between any two. */
  datatype State<T> = State(ads: seq<Adapter>, info: seq<T>, flag: Square, coef: Square)

  ghost predicate Valid<T>(st: State<T>) {
    && Tiled(st.ads, |st.info|)
    && IsSquare(st.flag) && |st.flag| == |st.info|
    && IsSquare(st.coef) && |st.coef| == |st.info|
    && forall i | 0 <= i < |st.ads| && !st.ads[i].live :: st.ads[i] == NO_ADAPTER
  }

  ghost function AddCard<T>(st: State<T>, id: nat, channels: nat, blank: T): (st': State<T>)
    requires Valid(st) && id < |st.ads| && !st.ads[id].live
    ensures Valid(st')
  {
    var base := NewBase(st.ads, id);
    AddTiled(st.ads, id, channels, |st.info|);
    State(Add(st.ads, id, channels), Insert(st.info, base, channels, blank),
          InsertSquare(st.flag, base, channels), InsertSquare(st.coef, base, channels))
  }

  ghost function RemoveCard<T>(st: State<T>, id: nat): (st': State<T>)
    requires Valid(st) && id < |st.ads| && st.ads[id].live
    ensures Valid(st')
  {
    var base, n := st.ads[id].base, st.ads[id].channels;
    RemoveFits(st.ads, id, |st.info|);
    RemoveTiled(st.ads, id, |st.info|);
    State(Remove(st.ads, id), Delete(st.info, base, n), DeleteSquare(st.flag, base, n), DeleteSquare(st.coef, base, n))
  }

  /** Taking the card just added away again restores everything. */
  lemma AddThenRemove<T>(st: State<T>, id: nat, channels: nat, blank: T)
    requires Valid(st) && id < |st.ads| && !st.ads[id].live
    ensures RemoveCard(AddCard(st, id, channels, blank), id) == st
  {
    var base, st1 := NewBase(st.ads, id), AddCard(st, id, channels, blank);
    AddTiled(st.ads, id, channels, |st.info|);
    RemoveFits(st1.ads, id, |st1.info|);
    DeleteInsert(st.info, base, channels, blank);
    DeleteInsertSquare(st.flag, base, channels);
    DeleteInsertSquare(st.coef, base, channels);
    assert RemoveCard(st1, id).ads == st.ads;
  }

  /** Channel `x` of adapter `a`. */
  ghost predicate Has<T>(st: State<T>, a: nat, x: nat) {
    a < |st.ads| && st.ads[a].live && x < st.ads[a].channels
  }

  ghost function Position<T>(st: State<T>, a: nat, x: nat): (p: nat)
    requires Valid(st) && Has(st, a, x)
    ensures p < |st.info|
  {
    RemoveFits(st.ads, a, |st.info|);
    st.ads[a].base + x
  }

  /** What the tables say about the pair of channels (a, x) and (b, y). */
  ghost function Between<T>(st: State<T>, a: nat, x: nat, b: nat, y: nat): (T, Byte, Byte)
    requires Valid(st) && Has(st, a, x) && Has(st, b, y)
  {
    var i, j := Position(st, a, x), Position(st, b, y);
    (st.info[i], st.flag[i][j], st.coef[i][j])
  }

  lemma AddKeeps<T>(st: State<T>, id: nat, channels: nat, blank: T, a: nat, x: nat, b: nat, y: nat)
    requires Valid(st) && id < |st.ads| && !st.ads[id].live && Has(st, a, x) && Has(st, b, y)
    ensures var st' := AddCard(st, id, channels, blank);
      Has(st', a, x) && Has(st', b, y) && Between(st', a, x, b, y) == Between(st, a, x, b, y)
  {
    var base := NewBase(st.ads, id);
    AddTiled(st.ads, id, channels, |st.info|);
    AddMoves(st, id, channels, blank, a, x);
    AddMoves(st, id, channels, blank, b, y);
    InsertSquareEntries(st.flag, base, channels);
    InsertSquareEntries(st.coef, base, channels);
  }

  lemma AddMoves<T>(st: State<T>, id: nat, channels: nat, blank: T, a: nat, x: nat)
    requires Valid(st) && id < |st.ads| && !st.ads[id].live && Has(st, a, x)
    ensures var st' := AddCard(st, id, channels, blank);
      Has(st', a, x) && Position(st', a, x) == Up(Position(st, a, x), NewBase(st.ads, id), channels)
  {
    NewBaseSum(st.ads, id, |st.info|);
    if a < id {
      SumPrefix(st.ads, a, id);
    } else {
      SumPrefix(st.ads, id, a);
    }
  }

  /** A new channel starts without relations to any other, in both tables. */
  lemma AddBlank<T>(st: State<T>, id: nat, channels: nat, blank: T, x: nat, b: nat, y: nat)
    requires Valid(st) && id < |st.ads| && !st.ads[id].live && x < channels
    requires Has(AddCard(st, id, channels, blank), b, y)
    ensures var st' := AddCard(st, id, channels, blank);
      && Has(st', id, x)
      && Between(st', id, x, b, y) == (blank, 0, 0)
      && Between(st', b, y, id, x).1 == 0 && Between(st', b, y, id, x).2 == 0
  {
    var base := NewBase(st.ads, id);
    NewBaseSum(st.ads, id, |st.info|);
    AddTiled(st.ads, id, channels, |st.info|);
    InsertSquareEntries(st.flag, base, channels);
    InsertSquareEntries(st.coef, base, channels);
  }

  lemma RemoveMoves<T>(st: State<T>, id: nat, a: nat, x: nat)
    requires Valid(st) && id < |st.ads| && st.ads[id].live && Has(st, a, x) && a != id
    ensures var st' := RemoveCard(st, id);
      Has(st', a, x) && Up(Position(st', a, x), st.ads[id].base, st.ads[id].channels) == Position(st, a, x)
  {
    RemoveFits(st.ads, id, |st.info|);
    if a < id {
      SumPrefix(st.ads, a, id);
    }
  }

  lemma RemoveKeeps<T>(st: State<T>, id: nat, a: nat, x: nat, b: nat, y: nat)
    requires Valid(st) && id < |st.ads| && st.ads[id].live && Has(st, a, x) && Has(st, b, y) && a != id && b != id
    ensures var st' := RemoveCard(st, id);
      Has(st', a, x) && Has(st', b, y) && Between(st', a, x, b, y) == Between(st, a, x, b, y)
  {
    var base, n := st.ads[id].base, st.ads[id].channels;
    RemoveFits(st.ads, id, |st.info|);
    RemoveMoves(st, id, a, x);
    RemoveMoves(st, id, b, y);
    DeleteSquareEntries(st.flag, base, n);
    DeleteSquareEntries(st.coef, base, n);
  }

  datatype Op<T> = AddOp(id: nat, channels: nat, blank: T) | RemoveOp(id: nat)

  /** An operation the driver can perform: adding into a free place, removing a
      live adapter. */
  ghost predicate Enabled<T>(st: State<T>, op: Op<T>) {
    op.id < |st.ads| && (op.AddOp? <==> !st.ads[op.id].live)
  }

  ghost function Apply<T>(st: State<T>, op: Op<T>): (st': State<T>)
    requires Valid(st) && Enabled(st, op)
    ensures Valid(st')
  {
    match op
    case AddOp(id, channels, blank) => AddCard(st, id, channels, blank)
    case RemoveOp(id) => RemoveCard(st, id)
  }

  ghost predicate Run<T>(sts: seq<State<T>>, ops: seq<Op<T>>) {
    && |sts| == |ops| + 1 && Valid(sts[0])
    && forall i | 0 <= i < |ops| :: Valid(sts[i]) && Enabled(sts[i], ops[i]) && sts[i + 1] == Apply(sts[i], ops[i])
  }

  /** Over any run, whatever lies between two channels of adapters that are
      never removed stays as it is, however often the tables are re-indexed;
      and the live adapters keep tiling the channel numbers. */
  lemma {:induction false} RunKeeps<T>(sts: seq<State<T>>, ops: seq<Op<T>>, a: nat, x: nat, b: nat, y: nat)
    requires Run(sts, ops) && Has(sts[0], a, x) && Has(sts[0], b, y)
    requires forall op | op in ops && op.RemoveOp? :: op.id != a && op.id != b
    ensures var st := sts[|ops|];
      && Valid(st) && Has(st, a, x) && Has(st, b, y)
      && Between(st, a, x, b, y) == Between(sts[0], a, x, b, y)
    decreases |ops|
  {
    if ops != [] {
      var m := |ops| - 1;
      RunKeeps(sts[..m + 1], ops[..m], a, x, b, y);
      var st, op := sts[m], ops[m];
      assert op in ops;
      match op
      case AddOp(id, channels, blank) => AddKeeps(st, id, channels, blank, a, x, b, y);
      case RemoveOp(id) => RemoveKeeps(st, id, a, x, b, y);
    }
  }
}
