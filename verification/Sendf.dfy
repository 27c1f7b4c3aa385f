/** The two passes of `sendf` (kernel/capifunc.c:265-408).  The second pass keeps
    the stack of open structures inside their own, still unwritten, length
    bytes: each holds the distance back to the enclosing one. */
module Sendf {
  import opened MessageFormat
  import opened Words

  const HEADER := 12
  const NO_LEVEL: Byte := 0xff   // level after a format error

  // ------------------------------------------------- the stack made explicit

  /** The message so far and the places of the open length bytes. */
  datatype Machine = Machine(buf: seq<Byte>, stack: seq<nat>)

  predicate Sound(m: Machine) {
    && (forall k | 0 <= k < |m.stack| :: HEADER <= m.stack[k] < |m.buf|)
    && (forall j, k | 0 <= j < k < |m.stack| :: m.stack[j] < m.stack[k])
  }

  function Top(m: Machine): nat {
    if m.stack == [] then 0 else m.stack[|m.stack| - 1]
  }

  /** `p_length` while the stack is kept. */
  datatype Pointer = Null | At(at: int)

  function TopPointer(m: Machine): Pointer {
    if m.stack == [] then Null else At(Top(m))
  }

  function Execute(m: Machine, t: Token): (m': Machine)
    requires Sound(m) && WellFormed(t) && HEADER <= |m.buf|
    ensures Sound(m') && |m'.buf| == |m.buf| + Size(t)
  {
    match t
    case Open =>
      Machine(m.buf + [if m.stack == [] then 0 else (|m.buf| - Top(m)) % 0x100], m.stack + [|m.buf|])
    case Close =>
      if m.stack == [] then m
      else Machine(m.buf[Top(m) := (|m.buf| - Top(m) - 1) % 0x100], m.stack[..|m.stack| - 1])
    case _ => Machine(m.buf + Put(t), m.stack)
  }

  function ExecuteAll(m: Machine, ts: seq<Token>): (m': Machine)
    requires Sound(m) && AllWellFormed(ts) && HEADER <= |m.buf|
    ensures Sound(m') && |m'.buf| == |m.buf| + Total(ts)
    decreases |ts|
  {
    if ts == [] then m else Execute(ExecuteAll(m, ts[..|ts| - 1]), ts[|ts| - 1])
  }

  lemma {:induction false} ExecuteConcat(m: Machine, a: seq<Token>, b: seq<Token>)
    requires Sound(m) && AllWellFormed(a) && AllWellFormed(b) && HEADER <= |m.buf|
    ensures AllWellFormed(a + b) && ExecuteAll(m, a + b) == ExecuteAll(ExecuteAll(m, a), b)
    decreases |b|
  {
    if b == [] {
      assert a + b == a;
    } else {
      assert (a + b)[..|a + b| - 1] == a + b[..|b| - 1];
      ExecuteConcat(m, a, b[..|b| - 1]);
    }
  }

  lemma {:induction false} FlattenWellFormed(items: seq<Item>)
    requires ItemsOk(items)
    ensures AllWellFormed(Flatten(items))
  {
    if items != [] {
      if items[0].Struct? {
        FlattenWellFormed(items[0].items);
      }
      FlattenWellFormed(items[1..]);
    }
  }

  /** The machine writes what the recursive encoder writes, and leaves the
      stack as it found it. */
  lemma {:induction false} MachineEncodes(m: Machine, items: seq<Item>)
    requires Sound(m) && HEADER <= |m.buf| && ItemsOk(items)
    ensures AllWellFormed(Flatten(items))
    ensures ExecuteAll(m, Flatten(items)) == Machine(m.buf + Encode(items), m.stack)
    decreases items
  {
    hide Execute, ExecuteAll, Total, Put, EncodeItem, FlattenItem;
    FlattenWellFormed(items);
    if items == [] {
      assert m.buf + [] == m.buf;
      ExecuteNone(m);
    } else {
      var a, b := FlattenItem(items[0]), Flatten(items[1..]);
      MachineEncodesItem(m, items[0]);
      var m1 := Machine(m.buf + EncodeItem(items[0]), m.stack);
      FlattenWellFormed(items[1..]);
      ExecuteConcat(m, a, b);
      MachineEncodes(m1, items[1..]);
      assert m.buf + Encode(items) == m1.buf + Encode(items[1..]);
    }
  }

  lemma {:induction false} MachineEncodesItem(m: Machine, i: Item)
    requires Sound(m) && HEADER <= |m.buf| && ItemOk(i)
    ensures AllWellFormed(FlattenItem(i))
    ensures ExecuteAll(m, FlattenItem(i)) == Machine(m.buf + EncodeItem(i), m.stack)
    ensures Sound(Machine(m.buf + EncodeItem(i), m.stack))
    decreases i
  {
    match i
    case Atom(t) =>
      assert [t][..0] == [];
      assert ExecuteAll(m, []) == m;
    case Struct(items) =>
      FlattenWellFormed(items);
      MachineEncodes(Execute(m, Open), items);
      ExecuteStruct(m, Flatten(items), Encode(items));
  }

  lemma ExecuteStruct(m: Machine, ts: seq<Token>, enc: seq<Byte>)
    requires Sound(m) && HEADER <= |m.buf| && AllWellFormed(ts)
    requires var m1 := Execute(m, Open); ExecuteAll(m1, ts) == Machine(m1.buf + enc, m1.stack)
    ensures AllWellFormed([Open] + ts + [Close])
    ensures ExecuteAll(m, [Open] + ts + [Close]) == Machine(m.buf + ([|enc| % 0x100] + enc), m.stack)
  {
    hide Execute, ExecuteAll, Put;
    var m1 := Execute(m, Open);
    ExecuteOne(m, Open);
    ExecuteConcat(m, [Open], ts);
    ExecuteLast(m, [Open] + ts, Close);
    CloseStruct(m, enc);
  }

  lemma ExecuteOne(m: Machine, t: Token)
    requires Sound(m) && HEADER <= |m.buf| && WellFormed(t)
    ensures ExecuteAll(m, [t]) == Execute(m, t)
  {
    assert [t][..0] == [] && ExecuteAll(m, []) == m;
  }

  lemma ExecuteLast(m: Machine, ts: seq<Token>, t: Token)
    requires Sound(m) && HEADER <= |m.buf| && AllWellFormed(ts) && WellFormed(t)
    ensures AllWellFormed(ts + [t]) && ExecuteAll(m, ts + [t]) == Execute(ExecuteAll(m, ts), t)
  {
    assert (ts + [t])[..|ts + [t]| - 1] == ts;
  }

  lemma CloseStruct(m: Machine, enc: seq<Byte>)
    requires Sound(m) && HEADER <= |m.buf|
    ensures var m1 := Execute(m, Open); var m2 := Machine(m1.buf + enc, m1.stack);
      Sound(m2) && Execute(m2, Close) == Machine(m.buf + ([|enc| % 0x100] + enc), m.stack)
  {
    hide Put;
    var m1 := Execute(m, Open);
    var m2 := Machine(m1.buf + enc, m1.stack);
    assert Top(m2) == |m.buf| && |m2.buf| == |m.buf| + 1 + |enc|;
    assert Execute(m2, Close).buf == m.buf + ([|enc| % 0x100] + enc);
    assert m1.stack[..|m1.stack| - 1] == m.stack;
  }

  // ---------------------------------------------- the stack in the length bytes

  /** Each open length byte holds the distance to the one around it, as far as a
      byte can, and the outermost holds 0. */
  ghost predicate Threaded(m: Machine)
    requires Sound(m)
  {
    forall k | 0 <= k < |m.stack| :: Thread(m, k)
  }

  ghost predicate Thread(m: Machine, k: nat)
    requires Sound(m) && k < |m.stack|
  {
    m.buf[m.stack[k]] == if k == 0 then 0 else (m.stack[k] - m.stack[k - 1]) % 0x100
  }

  /** The contents of every open structure still fit a length byte. */
  predicate Room(m: Machine) {
    m.stack == [] || |m.buf| - m.stack[0] - 1 <= 0xff
  }

  lemma ThreadedStep(m: Machine, t: Token)
    requires Sound(m) && WellFormed(t) && HEADER <= |m.buf| && Threaded(m)
    ensures Threaded(Execute(m, t))
  {
    hide Put;
    var m' := Execute(m, t);
    match t
    case Open =>
      ThreadedOpen(m);
    case Close =>
      forall k | 0 <= k < |m'.stack|
        ensures Thread(m', k)
      {
        assert Thread(m, k);
      }
    case _ =>
      forall k | 0 <= k < |m'.stack|
        ensures Thread(m', k)
      {
        assert Thread(m, k);
      }
  }

  lemma ThreadedOpen(m: Machine)
    requires Sound(m) && HEADER <= |m.buf| && Threaded(m)
    ensures Threaded(Execute(m, Open))
  {
    hide Put;
    var m', n := Execute(m, Open), |m.stack|;
    forall k | 0 <= k < |m'.stack|
      ensures Thread(m', k)
    {
      if k < n {
        assert Thread(m, k) && m'.stack[k] == m.stack[k] && m'.buf[m.stack[k]] == m.buf[m.stack[k]];
      }
    }
  }

  /** The innermost open structure starts within a byte's reach of the one
      around it. */
  predicate CloseNear(m: Machine)
    requires Sound(m)
  {
    |m.stack| < 2 || m.stack[|m.stack| - 1] - m.stack[|m.stack| - 2] <= 0xff
  }

  /** What the second pass reads from the top length byte when it closes leads
      back to the structure around it if and only if that is near. */
  lemma TopByte(m: Machine)
    requires Sound(m) && Threaded(m) && m.stack != []
    ensures var level := m.buf[Top(m)];
      CloseNear(m) <==> TopPointer(Execute(m, Close)) == (if level != 0 then At(Top(m) - level) else Null)
  {
    var n := |m.stack|;
    assert Thread(m, n - 1);
    if n > 1 {
      assert m.stack[n - 2] < m.stack[n - 1];
    }
  }

  const START := Machine([0, 0, 0, 0, 0, 0, 0, 0, 0, 0, 0, 0], [])

  function After(ts: seq<Token>): (m: Machine)
    requires AllWellFormed(ts)
    ensures Sound(m) && |m.buf| == HEADER + Total(ts)
  {
    ExecuteAll(START, ts)
  }

  /** Contents of at most 255 bytes, for every structure at every moment. */
  ghost predicate SmallContents(ts: seq<Token>)
    requires AllWellFormed(ts)
  {
    forall i | 0 <= i <= |ts| :: Room(After(ts[..i]))
  }

  lemma {:induction false} StackKept(m: Machine, ts: seq<Token>)
    requires Sound(m) && HEADER <= |m.buf| && AllWellFormed(ts) && 0 <= Depth(ts)
    ensures var m' := ExecuteAll(m, ts); |m'.stack| == |m.stack| + Depth(ts) && m'.stack[..|m.stack|] == m.stack
    decreases |ts|
  {
    if ts != [] {
      StackKept(m, ts[..|ts| - 1]);
    }
  }

  lemma {:induction false} TotalPrefix(ts: seq<Token>, i: nat)
    requires AllWellFormed(ts) && i <= |ts|
    ensures AllWellFormed(ts[..i]) && Total(ts[..i]) <= Total(ts)
    decreases |ts|
  {
    if i < |ts| {
      TotalPrefix(ts[..|ts| - 1], i);
      assert ts[..|ts| - 1][..i] == ts[..i];
    } else {
      assert ts[..i] == ts;
    }
  }

  lemma {:induction false} DepthPrefix(ts: seq<Token>, i: nat)
    requires 0 <= Depth(ts) && i <= |ts|
    ensures 0 <= Depth(ts[..i])
    decreases |ts|
  {
    if i < |ts| {
      DepthPrefix(ts[..|ts| - 1], i);
      assert ts[..|ts| - 1][..i] == ts[..i];
    } else {
      assert ts[..i] == ts;
    }
  }

  predicate Fits(items: seq<Item>)
    requires ItemsOk(items)
  {
    items == [] || (FitsItem(items[0]) && Fits(items[1..]))
  }

  /** Every structure, at any depth, has contents of at most 255 bytes. */
  predicate FitsItem(i: Item)
    requires ItemOk(i)
  {
    match i
    case Atom(_) => true
    case Struct(items) => |Encode(items)| <= 0xff && Fits(items)
  }

  /** Inside an open structure nothing gets longer than its final contents. */
  lemma InsideRoom(m: Machine, items: seq<Item>, i: nat)
    requires Sound(m) && HEADER <= |m.buf| && ItemsOk(items) && AllWellFormed(Flatten(items)) && i <= |Flatten(items)|
    requires |m.stack| == 1 && |m.buf| - m.stack[0] - 1 + |Encode(items)| <= 0xff
    ensures AllWellFormed(Flatten(items)[..i]) && Room(ExecuteAll(m, Flatten(items)[..i]))
  {
    var ts := Flatten(items);
    MachineEncodes(m, items);
    TotalPrefix(ts, i);
    FlattenBalanced(items);
    DepthPrefix(ts, i);
    StackKept(m, ts[..i]);
  }

  /** Structures that fit leave room at every moment of the second pass. */
  lemma {:induction false} FitsRoom(m: Machine, items: seq<Item>, i: nat)
    requires Sound(m) && HEADER <= |m.buf| && m.stack == [] && ItemsOk(items) && Fits(items)
    requires AllWellFormed(Flatten(items)) && i <= |Flatten(items)|
    ensures AllWellFormed(Flatten(items)[..i]) && Room(ExecuteAll(m, Flatten(items)[..i]))
    decreases items
  {
    hide Execute, ExecuteAll, EncodeItem, FlattenItem, Put, Total, FitsItem;
    if items != [] {
      var a, b := FlattenItem(items[0]), Flatten(items[1..]);
      FlattenWellFormed(items[1..]);
      MachineEncodesItem(m, items[0]);
      TotalPrefix(Flatten(items), i);
      if |a| <= i {
        var m1 := Machine(m.buf + EncodeItem(items[0]), m.stack);
        FitsRoom(m1, items[1..], i - |a|);
        assert Flatten(items)[..i] == a + b[..i - |a|];
        ExecuteConcat(m, a, b[..i - |a|]);
      } else {
        assert Flatten(items)[..i] == a[..i];
        FitsRoomItem(m, items[0], i);
      }
    } else {
      assert Flatten(items)[..i] == [];
      ExecuteNone(m);
    }
  }

  lemma ExecuteNone(m: Machine)
    requires Sound(m) && HEADER <= |m.buf|
    ensures ExecuteAll(m, []) == m
  {
  }

  lemma FitsRoomItem(m: Machine, item: Item, i: nat)
    requires Sound(m) && HEADER <= |m.buf| && m.stack == [] && ItemOk(item) && FitsItem(item)
    requires AllWellFormed(FlattenItem(item)) && i < |FlattenItem(item)|
    ensures AllWellFormed(FlattenItem(item)[..i]) && Room(ExecuteAll(m, FlattenItem(item)[..i]))
  {
    hide ExecuteAll, Execute, EncodeItem, Put, Total, Room;
    if i == 0 {
      assert FlattenItem(item)[..i] == [];
      ExecuteNone(m);
      NothingOpen(m);
    } else {
      var ts := Flatten(item.items);
      var m1 := Execute(m, Open);
      OneOpen(m);
      FlattenWellFormed(item.items);
      InsideRoom(m1, item.items, i - 1);
      ExecuteOne(m, Open);
      ExecuteConcat(m, [Open], ts[..i - 1]);
      assert FlattenItem(item)[..i] == [Open] + ts[..i - 1];
    }
  }

  lemma NothingOpen(m: Machine)
    requires m.stack == []
    ensures Room(m)
  {
  }

  lemma OneOpen(m: Machine)
    requires Sound(m) && HEADER <= |m.buf| && m.stack == []
    ensures Execute(m, Open).stack == [|m.buf|] && |Execute(m, Open).buf| == |m.buf| + 1
  {
  }

  lemma FitsSmallContents(items: seq<Item>)
    requires ItemsOk(items) && Fits(items)
    ensures AllWellFormed(Flatten(items)) && SmallContents(Flatten(items))
  {
    FlattenWellFormed(items);
    forall i | 0 <= i <= |Flatten(items)|
      ensures AllWellFormed(Flatten(items)[..i]) && Room(After(Flatten(items)[..i]))
    {
      FitsRoom(START, items, i);
    }
  }

  /** Wherever a structure inside another one closes, the one around it starts
      within a byte's reach. */
  predicate Near(ts: seq<Token>)
    requires AllWellFormed(ts)
    decreases |ts|
  {
    ts == [] ||
    (var r := ts[..|ts| - 1]; Near(r) && (ts[|ts| - 1] == Close ==> CloseNear(After(r))))
  }

  lemma RoomIsCloseNear(m: Machine)
    requires Sound(m) && Room(m)
    ensures CloseNear(m)
  {
    if 2 <= |m.stack| {
      assert m.stack[0] <= m.stack[|m.stack| - 2];
    }
  }

  lemma {:induction false} SmallIsNear(ts: seq<Token>)
    requires AllWellFormed(ts) && SmallContents(ts)
    ensures Near(ts)
    decreases |ts|
  {
    if ts != [] {
      var r := ts[..|ts| - 1];
      forall i | 0 <= i <= |r|
        ensures Room(After(r[..i]))
      {
        assert r[..i] == ts[..i];
      }
      SmallIsNear(r);
      assert r == ts[..|r|];
      RoomIsCloseNear(After(r));
    }
  }

  // ------------------------------------------------- the pass without a stack

  /** The pass goes on, met a closing bracket with nothing open, or followed a
      length byte that led it out of the contents. */
  datatype Status = Running | FormatError | Stray

  /** The message and `p_length`, all that the second pass keeps. */
  datatype Pass = Pass(buf: seq<Byte>, open: Pointer, status: Status)

  predicate Sensible(p: Pass) {
    HEADER <= |p.buf| && (p.open.At? ==> p.open.at < |p.buf|)
  }

  function Write(p: Pass, t: Token): (p': Pass)
    requires Sensible(p) && WellFormed(t)
    ensures Sensible(p') && |p'.buf| <= |p.buf| + Size(t)
    ensures p'.status == Running ==> |p'.buf| == |p.buf| + Size(t) && p.status == Running
  {
    if p.status != Running then p
    else
      match t
      case Open => Pass(p.buf + [if p.open == Null then 0 else (|p.buf| - p.open.at) % 0x100], At(|p.buf|), Running)
      case Close =>
        if p.open == Null then p.(status := FormatError)
        else if p.open.at < HEADER then p.(status := Stray)
        else
          var a := p.open.at;
          var level := p.buf[a];
          Pass(p.buf[a := (|p.buf| - a - 1) % 0x100], if level != 0 then At(a - level) else Null, Running)
      case _ => Pass(p.buf + Put(t), p.open, Running)
  }

  function WriteAll(ts: seq<Token>): (p: Pass)
    requires AllWellFormed(ts)
    ensures Sensible(p) && |p.buf| <= HEADER + Total(ts)
    ensures p.status == Running ==> |p.buf| == HEADER + Total(ts)
    decreases |ts|
  {
    if ts == [] then Pass(START.buf, Null, Running) else Write(WriteAll(ts[..|ts| - 1]), ts[|ts| - 1])
  }

  /** The pass finds the stack again at every moment. */
  predicate Tracked(ts: seq<Token>)
    requires AllWellFormed(ts)
    decreases |ts|
  {
    (ts == [] || Tracked(ts[..|ts| - 1])) && WriteAll(ts) == Pass(After(ts).buf, TopPointer(After(ts)), Running)
  }

  lemma {:induction false} AfterThreaded(ts: seq<Token>)
    requires AllWellFormed(ts)
    ensures Threaded(After(ts))
    decreases |ts|
  {
    if ts != [] {
      AfterThreaded(ts[..|ts| - 1]);
      ThreadedStep(After(ts[..|ts| - 1]), ts[|ts| - 1]);
    }
  }

  /** One token, while the pass and the stack agree. */
  lemma TrackedStep(m: Machine, t: Token)
    requires Sound(m) && Threaded(m) && HEADER <= |m.buf| && WellFormed(t) && (t == Close ==> m.stack != [])
    ensures var p := Pass(m.buf, TopPointer(m), Running);
            var m' := Execute(m, t);
            Write(p, t) == Pass(m'.buf, TopPointer(m'), Running) <==> (t == Close ==> CloseNear(m))
  {
    hide Put, Threaded;
    if t == Close {
      TopByte(m);
    }
  }

  /** It does so if and only if no structure closes that is too far from the one
      around it. */
  lemma {:induction false} TrackedIff(ts: seq<Token>)
    requires AllWellFormed(ts) && 0 <= Depth(ts)
    ensures Tracked(ts) <==> Near(ts)
    decreases |ts|
  {
    hide Execute, Threaded, CloseNear, Write, Put;
    if ts != [] {
      var r := ts[..|ts| - 1];
      DepthPrefix(ts, |ts| - 1);
      TrackedIff(r);
      AfterThreaded(r);
      StackKept(START, ts[..|ts| - 1]);
      assert ts[|ts| - 1] in ts;
      TrackedStep(After(r), ts[|ts| - 1]);
    }
  }

  // ---------------------------------------------------------- the first pass

  predicate IsNumber(t: Token) {
    t.ByteArg? || t.WordArg? || t.DwordArg?
  }

  /** A number would end beyond the scratch message, so its argument is left
      on the argument list. */
  predicate Skips(ts: seq<Token>, scratch: nat)
    requires AllWellFormed(ts)
    decreases |ts|
  {
    ts != [] && (Skips(ts[..|ts| - 1], scratch) || (IsNumber(ts[|ts| - 1]) && HEADER + Total(ts) > scratch))
  }

  /** No string comes after a number whose argument was left. */
  predicate InSync(ts: seq<Token>, scratch: nat)
    requires AllWellFormed(ts)
    decreases |ts|
  {
    ts == [] || (InSync(ts[..|ts| - 1], scratch) && !(ts[|ts| - 1].StringArg? && Skips(ts[..|ts| - 1], scratch)))
  }

  /** Never as deep as the value that marks a format error. */
  predicate Shallow(ts: seq<Token>)
    decreases |ts|
  {
    ts == [] || (Shallow(ts[..|ts| - 1]) && Depth(ts) < NO_LEVEL)
  }

  /** A number whose argument the first pass leaves: the message up to it is
      longer than the scratch message. */
  predicate Left(ts: seq<Token>, scratch: nat, i: nat)
    requires AllWellFormed(ts) && i < |ts|
  {
    TokensNext(ts, i);
    IsNumber(ts[i]) && scratch < HEADER + Total(ts[..i + 1])
  }

  lemma LeftBefore(ts: seq<Token>, scratch: nat, i: nat)
    requires AllWellFormed(ts) && i < |ts| - 1
    ensures AllWellFormed(ts[..|ts| - 1]) && (Left(ts, scratch, i) <==> Left(ts[..|ts| - 1], scratch, i))
  {
    assert ts[..|ts| - 1][..i + 1] == ts[..i + 1];
  }

  lemma {:induction false} SkipsMeans(ts: seq<Token>, scratch: nat)
    requires AllWellFormed(ts)
    ensures Skips(ts, scratch) <==> exists i | 0 <= i < |ts| :: Left(ts, scratch, i)
    decreases |ts|
  {
    if ts != [] {
      var m := |ts| - 1;
      SkipsMeans(ts[..m], scratch);
      assert ts[..m + 1] == ts;
      assert Left(ts, scratch, m) <==> IsNumber(ts[m]) && scratch < HEADER + Total(ts);
      forall i | 0 <= i < m
        ensures Left(ts, scratch, i) <==> Left(ts[..m], scratch, i)
      {
        LeftBefore(ts, scratch, i);
      }
    }
  }

  /** The passes are in step if and only if no string comes behind a number that
      is left. */
  lemma {:induction false} InSyncMeans(ts: seq<Token>, scratch: nat)
    requires AllWellFormed(ts)
    ensures InSync(ts, scratch) <==>
              forall i, j | 0 <= i < j < |ts| :: !(Left(ts, scratch, i) && ts[j].StringArg?)
    decreases |ts|
  {
    hide Left, Skips;
    if ts != [] {
      var m := |ts| - 1;
      InSyncMeans(ts[..m], scratch);
      SkipsMeans(ts[..m], scratch);
      forall i | 0 <= i < m
        ensures Left(ts, scratch, i) <==> Left(ts[..m], scratch, i)
      {
        LeftBefore(ts, scratch, i);
      }
    }
  }

  /** A message no longer than the scratch message is always in step. */
  lemma {:induction false} ShortInSync(ts: seq<Token>, scratch: nat)
    requires AllWellFormed(ts) && HEADER + Total(ts) <= scratch
    ensures !Skips(ts, scratch) && InSync(ts, scratch)
    decreases |ts|
  {
    if ts != [] {
      ShortInSync(ts[..|ts| - 1], scratch);
    }
  }

  lemma {:induction false} ArgsAt(ts: seq<Token>, i: nat)
    requires i <= |ts|
    ensures ArgsOf(ts[..i]) <= ArgsOf(ts)
    ensures i < |ts| && ArgOf(ts[i]) != [] ==>
      |ArgsOf(ts[..i])| < |ArgsOf(ts)| && ArgsOf(ts)[|ArgsOf(ts[..i])|] == ArgOf(ts[i])[0]
    decreases |ts|
  {
    if i < |ts| {
      var r := ts[..|ts| - 1];
      ArgsAt(r, i);
      assert r[..i] == ts[..i];
      if i == |r| {
        assert ts[..i] == r;
      }
    } else {
      assert ts[..i] == ts;
    }
  }

  lemma TokensNext(ts: seq<Token>, i: nat)
    requires i < |ts| && AllWellFormed(ts)
    ensures ts[..i + 1][..|ts[..i + 1]| - 1] == ts[..i] && ts[..i + 1][|ts[..i + 1]| - 1] == ts[i]
    ensures WellFormed(ts[i]) && AllWellFormed(ts[..i]) && AllWellFormed(ts[..i + 1])
  {
    assert ts[i] in ts;
  }

  /** A prefix that went wrong stays wrong. */
  lemma {:induction false} PrefixDecides(ts: seq<Token>, i: nat)
    requires i <= |ts| && AllWellFormed(ts)
    ensures Depth(ts[..i]) == -1 ==> Depth(ts) == -1
    ensures Shallow(ts) ==> Shallow(ts[..i])
    ensures AllWellFormed(ts[..i])
    ensures forall scratch :: InSync(ts, scratch) ==> InSync(ts[..i], scratch)
    decreases |ts|
  {
    if i < |ts| {
      PrefixDecides(ts[..|ts| - 1], i);
      assert ts[..|ts| - 1][..i] == ts[..i];
    } else {
      assert ts[..i] == ts;
    }
  }

  lemma NoTokens(scratch: nat)
    ensures Total([]) == 0 && Depth([]) == 0 && Shallow([]) && InSync([], scratch) && !Skips([], scratch)
    ensures ArgsOf([]) == []
  {
  }

  /** What one more token does to everything the first pass keeps track of. */
  lemma TokenStep(ts: seq<Token>, i: nat, scratch: nat)
    requires AllWellFormed(ts) && i < |ts|
    ensures AllWellFormed(ts[..i]) && AllWellFormed(ts[..i + 1]) && WellFormed(ts[i])
    ensures Total(ts[..i + 1]) == Total(ts[..i]) + Size(ts[i]) <= Total(ts)
    ensures var d := Depth(ts[..i]);
      Depth(ts[..i + 1]) == if d < 0 then d else if ts[i] == Open then d + 1 else if ts[i] == Close then d - 1 else d
    ensures Shallow(ts[..i + 1]) <==> Shallow(ts[..i]) && Depth(ts[..i + 1]) < NO_LEVEL
    ensures Skips(ts[..i + 1], scratch) <==>
      Skips(ts[..i], scratch) || (IsNumber(ts[i]) && HEADER + Total(ts[..i + 1]) > scratch)
    ensures InSync(ts[..i + 1], scratch) <==>
      InSync(ts[..i], scratch) && !(ts[i].StringArg? && Skips(ts[..i], scratch))
    ensures ArgsOf(ts[..i + 1]) == ArgsOf(ts[..i]) + ArgOf(ts[i])
  {
    hide Put;
    TokensNext(ts, i);
    TotalPrefix(ts, i + 1);
  }

  /** The counting pass.  `synced` turns false where C would fetch an argument
      that was meant for another directive. */
  method FirstPass(format: string, args: seq<Arg>, scratch: nat, ghost ts: seq<Token>)
    returns (length: Word, level: Byte, synced: bool)
    requires AllWellFormed(ts) && format == Letters(ts) && args == ArgsOf(ts)
    requires HEADER + Total(ts) <= 0xffff
    ensures !synced ==> !InSync(ts, scratch)
    ensures synced ==> (level == 0 <==> Balanced(ts) && Shallow(ts))
    ensures synced && level == 0 ==> length == HEADER + Total(ts) && InSync(ts, scratch)
  {
    hide Put, Total, Depth, Shallow, InSync, Skips, ArgsOf, Size;
    length, level, synced := HEADER, 0, true;
    assert ts[..0] == [];
    NoTokens(scratch);
    var i, arg := 0, 0;
    while i < |format| && level != NO_LEVEL
      invariant 0 <= i <= |format| && AllWellFormed(ts[..i]) && length == HEADER + Total(ts[..i])
      invariant if level == NO_LEVEL then Depth(ts[..i]) == -1 || !Shallow(ts[..i])
                else Depth(ts[..i]) == level && Shallow(ts[..i])
      invariant InSync(ts[..i], scratch)
      invariant if Skips(ts[..i], scratch) then scratch < length && arg < |args| && args[arg].Number?
                else arg == |ArgsOf(ts[..i])|
      decreases |format| - i
    {
      var c := format[i];
      TokenStep(ts, i, scratch);
      ArgsAt(ts, i);
      ghost var t := ts[i];
      assert c == Letter(t);
      PutSize(t);
      match c {
      case 'b' =>
        length := length + 1;
        if length <= scratch {
          arg := arg + 1;
        }
      case 'w' =>
        length := length + 2;
        if length <= scratch {
          arg := arg + 1;
        }
      case 'd' =>
        length := length + 4;
        if length <= scratch {
          arg := arg + 1;
        }
      case 's' =>
        if args[arg].Number? {
          PrefixDecides(ts, i + 1);
          synced := false;
          return;
        }
        length := length + |args[arg].s| + 1;
        arg := arg + 1;
      case 'S' =>
        if args[arg].Number? {
          PrefixDecides(ts, i + 1);
          synced := false;
          return;
        }
        length := length + |args[arg].s| + 1;
        arg := arg + 1;
      case '(' =>
        length := length + 1;
        level := level + 1;
      case ')' =>
        level := if level != 0 then level - 1 else NO_LEVEL;
      case _ =>
      }
      i := i + 1;
    }
    PrefixDecides(ts, i);
    if level != NO_LEVEL {
      assert ts[..i] == ts;
    }
  }

  lemma PutSize(t: Token)
    requires WellFormed(t)
    ensures Size(t) == match t
      case ByteArg(_) => 1
      case WordArg(_) => 2
      case DwordArg(_) => 4
      case StringArg(s, _) => |s| + 1
      case Open => 1
      case _ => 0
  {
  }

  // --------------------------------------------------------- the second pass

  method Emit(msg: array<Byte>, write: nat, bytes: seq<Byte>)
    requires write + |bytes| <= msg.Length
    modifies msg
    ensures msg[..] == old(msg[..write]) + bytes + old(msg[write + |bytes|..])
  {
    for k := 0 to |bytes|
      invariant msg[..] == old(msg[..write]) + bytes[..k] + old(msg[write + k..])
    {
      msg[write + k] := bytes[k];
    }
  }

  /** The message holds the contents `buf`, behind the header. */
  ghost predicate Matches(msg: seq<Byte>, buf: seq<Byte>) {
    HEADER <= |buf| <= |msg| && msg[HEADER..|buf|] == buf[HEADER..]
  }

  lemma MatchesAppend(msg: seq<Byte>, msg': seq<Byte>, buf: seq<Byte>, bytes: seq<Byte>)
    requires Matches(msg, buf) && |buf| + |bytes| <= |msg|
    requires msg' == msg[..|buf|] + bytes + msg[|buf| + |bytes|..]
    ensures Matches(msg', buf + bytes) && msg'[..HEADER] == msg[..HEADER]
  {
    var w := |buf|;
    assert msg'[HEADER..w + |bytes|] == msg[HEADER..w] + bytes;
  }

  lemma MatchesPatch(msg: seq<Byte>, buf: seq<Byte>, p: nat, b: Byte)
    requires Matches(msg, buf) && HEADER <= p < |buf|
    ensures Matches(msg[p := b], buf[p := b]) && msg[p] == buf[p] && msg[p := b][..HEADER] == msg[..HEADER]
  {
    assert msg[HEADER..|buf|][p - HEADER] == buf[HEADER..][p - HEADER];
  }

  /** The bytes of one argument at the write pointer. */
  method WriteArgument(c: char, a: Arg, msg: array<Byte>, write: nat, ghost t: Token) returns (write': nat)
    requires WellFormed(t) && c == Letter(t) && ArgOf(t) == [a] && write + Size(t) <= msg.Length
    modifies msg
    ensures write' == write + |Put(t)|
    ensures msg[..] == old(msg[..write]) + Put(t) + old(msg[write + |Put(t)|..])
  {
    if c == 'b' {
      Emit(msg, write, [a.v % 0x100]);
      write' := write + 1;
    } else if c == 'w' {
      Emit(msg, write, WordBytes(a.v % 0x1_0000));
      write' := write + 2;
    } else if c == 'd' {
      Emit(msg, write, DwordBytes(a.v % 0x1_0000_0000));
      write' := write + 4;
    } else {
      Emit(msg, write, [|a.s|] + a.s);
      write' := write + (|a.s| + 1);
    }
  }

  /** The length of a structure goes to its length byte; what that byte held
      leads to the structure around. */
  method WriteLength(msg: array<Byte>, write: nat, at: nat, ghost p: Pass) returns (pLength: Pointer)
    requires Sensible(p) && p.status == Running && Matches(msg[..], p.buf) && write == |p.buf|
    requires p.open == At(at) && HEADER <= at
    modifies msg
    ensures var p' := Write(p, Close);
      && p'.status == Running && |p'.buf| == |p.buf| && Matches(msg[..], p'.buf)
      && msg[..HEADER] == old(msg[..HEADER]) && pLength == p'.open
  {
    hide Put, Matches;
    MatchesPatch(msg[..], p.buf, at, (write - at - 1) % 0x100);
    MatchesLength(msg[..], p.buf);
    var level := msg[at];
    msg[at] := (write - at - 1) % 0x100;
    pLength := if level != 0 then At(at - level) else Null;
    assert msg[..] == old(msg[..])[at := msg[at]];
  }

  /** One directive of the writing pass.  `pLength` is the innermost open length
      byte, as far as the pass knows; what lies around it is found again in the
      byte itself. */
  method WriteToken(c: char, a: seq<Arg>, msg: array<Byte>, write: nat, pLength: Pointer, ghost p: Pass, ghost t: Token)
    returns (write': nat, pLength': Pointer, taken: nat, status: Status)
    requires Sensible(p) && p.status == Running && Matches(msg[..], p.buf) && write == |p.buf| && pLength == p.open
    requires WellFormed(t) && c == Letter(t) && ArgOf(t) <= a && |p.buf| + Size(t) <= msg.Length
    modifies msg
    ensures var p' := Write(p, t);
      && status == p'.status && Matches(msg[..], p'.buf) && msg[..HEADER] == old(msg[..HEADER])
      && taken == |ArgOf(t)|
      && (status == Running ==> write' == |p'.buf| && pLength' == p'.open)
  {
    hide Put, Matches;
    ghost var m0 := msg[..];
    write', pLength', taken, status := write, pLength, 0, Running;
    TokenKinds(t);
    if c == '(' {
      msg[write] := if pLength != Null then (write - pLength.at) % 0x100 else 0;
      pLength' := At(write);
      write' := write + 1;
      assert msg[..] == m0[write := msg[write]];
      OneReplaced(m0, write, msg[write]);
      MatchesAppend(m0, msg[..], p.buf, [msg[write]]);
    } else if c == ')' {
      if pLength == Null {
        status := FormatError;
      } else if pLength.at < HEADER {
        status := Stray;
      } else {
        pLength' := WriteLength(msg, write, pLength.at, p);
      }
    } else if c == 'b' || c == 'w' || c == 'd' || c == 's' || c == 'S' {
      write' := WriteArgument(c, a[0], msg, write, t);
      taken := 1;
      MatchesAppend(m0, msg[..], p.buf, Put(t));
    } else {
      assert p.buf + Put(t) == p.buf;
    }
  }

  lemma OneReplaced(s: seq<Byte>, i: nat, b: Byte)
    requires i < |s|
    ensures s[i := b] == s[..i] + [b] + s[i + 1..]
  {
  }

  lemma MatchesLength(msg: seq<Byte>, buf: seq<Byte>)
    requires Matches(msg, buf)
    ensures HEADER <= |buf| <= |msg|
  {
  }

  lemma TokenKinds(t: Token)
    requires WellFormed(t)
    ensures var c := Letter(t);
      && (c == '(' <==> t == Open) && (c == ')' <==> t == Close)
      && (c == 'b' || c == 'w' || c == 'd' || c == 's' || c == 'S' <==> |ArgOf(t)| == 1)
      && (|ArgOf(t)| != 1 && t != Open ==> Put(t) == [] && ArgOf(t) == [])
      && (t != Open ==> |Put(t)| == Size(t)) && (t == Open ==> Size(t) == 1 && ArgOf(t) == [])
      && (t == Close ==> ArgOf(t) == [])
  {
  }

  /** The writing pass. */
  method SecondPass(format: string, args: seq<Arg>, msg: array<Byte>, ghost ts: seq<Token>) returns (status: Status)
    requires AllWellFormed(ts) && format == Letters(ts) && args == ArgsOf(ts)
    requires msg.Length == HEADER + Total(ts)
    modifies msg
    ensures status == WriteAll(ts).status && msg[..HEADER] == old(msg[..HEADER])
    ensures Matches(msg[..], WriteAll(ts).buf)
  {
    hide Put, Write, Total, Matches, ArgOf, ArgsOf;
    var write, arg, i := HEADER, 0, 0;
    var pLength := Null;
    status := Running;
    PassStarts(msg[..]);
    assert ts[..0] == [];
    while i < |format| && status == Running
      invariant 0 <= i <= |format| && AllWellFormed(ts[..i]) && status == WriteAll(ts[..i]).status
      invariant status == Running ==> write == |WriteAll(ts[..i]).buf| && pLength == WriteAll(ts[..i]).open
      invariant arg == |ArgsOf(ts[..i])| <= |args|
      invariant Matches(msg[..], WriteAll(ts[..i]).buf) && msg[..HEADER] == old(msg[..HEADER])
      decreases |format| - i
    {
      NextToken(ts, i);
      ArgsAt(ts, i);
      ArgsAt(ts, i + 1);
      var taken;
      assert ArgOf(ts[i]) <= args[arg..];
      write, pLength, taken, status := WriteToken(format[i], args[arg..], msg, write, pLength, WriteAll(ts[..i]), ts[i]);
      arg := arg + taken;
      i := i + 1;
    }
    assert ts[..|ts|] == ts;
    Stopped(ts, i);
  }

  lemma PassStarts(msg: seq<Byte>)
    requires HEADER <= |msg|
    ensures WriteAll([]) == Pass(START.buf, Null, Running) && |START.buf| == HEADER && Matches(msg, START.buf)
    ensures ArgsOf([]) == []
  {
    assert msg[HEADER..HEADER] == START.buf[HEADER..];
  }

  /** One step of the pass, and what it may rely on. */
  lemma NextToken(ts: seq<Token>, i: nat)
    requires AllWellFormed(ts) && i < |ts|
    ensures AllWellFormed(ts[..i]) && AllWellFormed(ts[..i + 1]) && WellFormed(ts[i])
    ensures WriteAll(ts[..i + 1]) == Write(WriteAll(ts[..i]), ts[i])
    ensures |WriteAll(ts[..i]).buf| + Size(ts[i]) <= HEADER + Total(ts)
    ensures ArgsOf(ts[..i + 1]) == ArgsOf(ts[..i]) + ArgOf(ts[i])
  {
    hide Write;
    TokensNext(ts, i);
    TotalPrefix(ts, i + 1);
  }

  /** A pass that has stopped changes nothing any more. */
  lemma {:induction false} Stopped(ts: seq<Token>, i: nat)
    requires AllWellFormed(ts) && i <= |ts| && AllWellFormed(ts[..i])
    ensures WriteAll(ts[..i]).status != Running ==> WriteAll(ts) == WriteAll(ts[..i])
    decreases |ts|
  {
    if i < |ts| {
      var r := ts[..|ts| - 1];
      assert r[..i] == ts[..i];
      Stopped(r, i);
    } else {
      assert ts[..i] == ts;
    }
  }

  // ---------------------------------------------------------------- the whole

  datatype Outcome = Sent(message: seq<Byte>) | Lost | Undefined

  function Header(length: Word, applId: Word, command: Word, number: Word, id: Dword): (h: seq<Byte>)
    ensures |h| == HEADER
  {
    WordBytes(length) + WordBytes(applId) + WordBytes(command) + WordBytes(number) + DwordBytes(id)
  }

  /** What becomes of a message. */
  function Delivered(header: seq<Byte>, p: Pass): Outcome
    requires |header| == HEADER <= |p.buf|
  {
    match p.status
    case Running => Sent(header + p.buf[HEADER..])
    case FormatError => Lost
    case Stray => Undefined
  }

  /** `sendf` up to the hand-over of the message.  A structure-shaped format is
      sent as the recursive encoder writes it, under a header that gives its
      true length, if its structures start near the ones around them; any other
      format is lost. */
  method Sendf(applId: Word, command: Word, number: Word, id: Dword, format: string, args: seq<Arg>, scratch: nat,
               ghost ts: seq<Token>) returns (o: Outcome)
    requires AllWellFormed(ts) && format == Letters(ts) && args == ArgsOf(ts)
    requires HEADER + Total(ts) <= 0xffff
    ensures Balanced(ts) && Shallow(ts) && InSync(ts, scratch) && Near(ts) ==>
      o == Sent(Header(HEADER + Total(ts), applId, command, number, id) + Encode(Parse(ts).0))
    ensures Balanced(ts) && Shallow(ts) && InSync(ts, scratch) ==>
      o == Delivered(Header(HEADER + Total(ts), applId, command, number, id), WriteAll(ts))
    ensures o.Sent? ==> |o.message| == HEADER + Total(ts)
    ensures Balanced(ts) && Shallow(ts) && !InSync(ts, scratch) ==> o == Undefined
    ensures !(Balanced(ts) && Shallow(ts)) && InSync(ts, scratch) ==> o == Lost
  {
    hide Shallow, InSync, Near, Parse, WriteAll, Encode, Depth, Matches, Total, Letters, ArgsOf;
    var length, level, synced := FirstPass(format, args, scratch, ts);
    if !synced {
      return Undefined;
    }
    if level != 0 {
      return Lost;
    }
    var msg := new Byte[length];
    ghost var header := Header(length, applId, command, number, id);
    Emit(msg, 0, Header(length, applId, command, number, id));
    assert msg[..HEADER] == header;
    var status := SecondPass(format, args, msg, ts);
    if Near(ts) {
      StructureWritten(header, ts);
    }
    match status {
      case Running =>
        MatchesAll(msg[..], header, WriteAll(ts).buf);
        return Sent(msg[..]);
      case FormatError => return Lost;
      case Stray => return Undefined;
    }
  }

  lemma MatchesAll(msg: seq<Byte>, header: seq<Byte>, buf: seq<Byte>)
    requires Matches(msg, buf) && |buf| == |msg| && |header| == HEADER <= |buf| && msg[..HEADER] == header
    ensures msg == header + buf[HEADER..]
  {
  }

  lemma StructureWritten(header: seq<Byte>, ts: seq<Token>)
    requires AllWellFormed(ts) && Balanced(ts) && Near(ts) && |header| == HEADER
    ensures WriteAll(ts).status == Running && Delivered(header, WriteAll(ts)) == Sent(header + Encode(Parse(ts).0))
  {
    hide Encode, Parse, ExecuteAll, Execute, Total, Flatten, Depth, Near, Write;
    TrackedIff(ts);
    BalancedIsStructure(ts);
    MachineEncodes(START, Parse(ts).0);
    assert After(ts).buf[HEADER..] == Encode(Parse(ts).0);
  }

  // --------------------------------------------------- where the promise ends

  /** `n` structures, each the only content of the one around it. */
  function Nested(n: nat): (items: seq<Item>)
    ensures ItemsOk(items) && (n == 0 ==> items == [])
  {
    if n == 0 then [] else [Struct(Nested(n - 1))]
  }

  lemma {:induction false} NestedEncodes(n: nat)
    requires n <= 0x100
    ensures |Encode(Nested(n))| == n && Fits(Nested(n))
  {
    if n != 0 {
      NestedEncodes(n - 1);
      assert Nested(n)[1..] == [];
    }
  }

  lemma {:induction false} NestedShallow(n: nat, outer: seq<Token>)
    requires 0 <= Depth(outer) && Shallow(outer)
    ensures Depth(outer + Flatten(Nested(n))) == Depth(outer)
    ensures Shallow(outer + Flatten(Nested(n))) <==> Depth(outer) + n < NO_LEVEL || n == 0
    decreases n
  {
    hide Depth, Shallow;
    if n == 0 {
      assert outer + [] == outer;
    } else {
      var inner, a := Flatten(Nested(n - 1)), outer + [Open];
      assert Nested(n)[1..] == [] && Flatten(Nested(n)) == [Open] + inner + [Close];
      LastToken(outer, Open);
      assert outer + Flatten(Nested(n)) == (a + inner) + [Close];
      NestedBalanced(n - 1);
      DepthConcat(a, inner);
      if Shallow(a) {
        NestedShallow(n - 1, a);
      } else {
        assert (a + inner)[..|a|] == a;
        ShallowPrefix(a + inner, |a|);
      }
      LastToken(a + inner, Close);
    }
  }

  lemma LastToken(ts: seq<Token>, t: Token)
    requires 0 <= Depth(ts) && (t == Open || t == Close)
    ensures Depth(ts + [t]) == Depth(ts) + if t == Open then 1 else -1
    ensures Shallow(ts + [t]) <==> Shallow(ts) && Depth(ts + [t]) < NO_LEVEL
    ensures Shallow(ts) ==> Depth(ts) < NO_LEVEL
  {
    assert (ts + [t])[..|ts + [t]| - 1] == ts;
  }

  lemma NestedBalanced(n: nat)
    ensures Depth(Flatten(Nested(n))) == 0
  {
    FlattenBalanced(Nested(n));
  }

  lemma {:induction false} ShallowPrefix(ts: seq<Token>, i: nat)
    requires i <= |ts|
    ensures Shallow(ts) ==> Shallow(ts[..i])
    decreases |ts|
  {
    if i < |ts| {
      ShallowPrefix(ts[..|ts| - 1], i);
      assert ts[..|ts| - 1][..i] == ts[..i];
    } else {
      assert ts[..i] == ts;
    }
  }

  /** Structures nested 255 or 256 deep still fit their length bytes, but the
      first pass takes the depth 255 for its error mark; up to 254 it does not. */
  lemma DepthLimit(n: nat)
    requires n <= 0x100
    ensures Balanced(Flatten(Nested(n))) && Fits(Nested(n))
    ensures Shallow(Flatten(Nested(n))) <==> n <= 254
  {
    NestedEncodes(n);
    NestedBalanced(n);
    NestedShallow(n, []);
    assert [] + Flatten(Nested(n)) == Flatten(Nested(n));
  }

  function Bytes(n: nat, v: nat): (ts: seq<Token>)
    ensures |ts| == n && forall i | 0 <= i < n :: ts[i] == ByteArg(v)
  {
    seq(n, _ => ByteArg(v))
  }

  lemma {:induction false} BytesCount(n: nat, v: nat, scratch: nat)
    requires HEADER <= scratch
    ensures AllWellFormed(Bytes(n, v)) && Total(Bytes(n, v)) == n && Depth(Bytes(n, v)) == 0
    ensures Shallow(Bytes(n, v)) && InSync(Bytes(n, v), scratch) && (Skips(Bytes(n, v), scratch) <==> scratch < HEADER + n)
    decreases n
  {
    if n != 0 {
      assert Bytes(n, v)[..|Bytes(n, v)| - 1] == Bytes(n - 1, v);
      BytesCount(n - 1, v, scratch);
    }
  }

  /** Whatever the size of the scratch message, one number beyond it and a
      string behind that put the argument list out of step. */
  lemma OutOfStep(v: nat, s: seq<Byte>, scratch: nat)
    requires |s| <= 255 && HEADER <= scratch
    ensures var ts := Bytes(scratch - HEADER + 1, v) + [StringArg(s, 's')];
      && AllWellFormed(ts) && HEADER + Total(ts) == scratch + 2 + |s|
      && Balanced(ts) && Shallow(ts) && !InSync(ts, scratch)
  {
    var first := Bytes(scratch - HEADER + 1, v);
    var ts := first + [StringArg(s, 's')];
    BytesCount(scratch - HEADER + 1, v, scratch);
    assert ts[..|ts| - 1] == first && ts[|ts| - 1] == StringArg(s, 's');
  }

  /** A structure with `k` bytes and an empty structure in it. */
  function FarStructure(k: nat, v: nat): (ts: seq<Token>) {
    [Open] + Bytes(k, v) + [Open] + [Close] + [Close]
  }

  lemma WriteLast(ts: seq<Token>, t: Token)
    requires AllWellFormed(ts) && WellFormed(t)
    ensures AllWellFormed(ts + [t]) && WriteAll(ts + [t]) == Write(WriteAll(ts), t)
    ensures Depth(ts + [t]) == (var d := Depth(ts); if d < 0 then d else if t == Open then d + 1 else if t == Close then d - 1 else d)
    ensures Near(ts + [t]) <==> Near(ts) && (t == Close ==> CloseNear(After(ts)))
  {
    hide Write;
    assert (ts + [t])[..|ts + [t]| - 1] == ts;
  }

  /** The message and the stack behind an opening bracket and `k` bytes. */
  predicate OneOpenWith(ts: seq<Token>, k: nat) {
    && AllWellFormed(ts) && Depth(ts) == 1 && Near(ts) && |After(ts).buf| == HEADER + 1 + k
    && After(ts).stack == [HEADER] && After(ts).buf[HEADER] == 0
    && WriteAll(ts) == Pass(After(ts).buf, At(HEADER), Running)
  }

  lemma FirstBracket()
    ensures OneOpenWith([Open], 0)
  {
    assert [Open] == [] + [Open];
    WriteLast([], Open);
    ExecuteLast(START, [], Open);
  }

  lemma NextByte(ts: seq<Token>, k: nat, v: nat)
    requires OneOpenWith(ts, k)
    ensures OneOpenWith(ts + [ByteArg(v)], k + 1)
  {
    WriteLast(ts, ByteArg(v));
    ExecuteLast(START, ts, ByteArg(v));
  }

  lemma {:induction false} OpenAndBytes(k: nat, v: nat)
    ensures OneOpenWith([Open] + Bytes(k, v), k)
    decreases k
  {
    var ts := [Open] + Bytes(k, v);
    if k == 0 {
      assert ts == [Open];
      FirstBracket();
    } else {
      OpenAndBytes(k - 1, v);
      NextByte([Open] + Bytes(k - 1, v), k - 1, v);
      assert ts == [Open] + Bytes(k - 1, v) + [ByteArg(v)];
    }
  }

  /** What the three brackets at the end make of the stack, */
  lemma BracketsOnStack(m: Machine, k: nat)
    requires Sound(m) && m.stack == [HEADER] && |m.buf| == HEADER + 1 + k
    ensures var m1 := Execute(m, Open); var m2 := Execute(m1, Close); var m3 := Execute(m2, Close);
      && (CloseNear(m1) <==> k < 255) && CloseNear(m2)
      && |m3.buf| == HEADER + 2 + k && m3.buf[HEADER] == (k + 1) % 0x100
  {
  }

  /** ... and of the pass that looks for it in the length bytes. */
  lemma BracketsInPass(p: Pass, k: nat)
    requires p.open == At(HEADER) && p.status == Running && |p.buf| == HEADER + 1 + k && p.buf[HEADER] == 0 && 255 <= k
    ensures var q := Write(Write(Write(p, Open), Close), Close);
      HEADER < |q.buf| && (q.status == Running ==> q.buf[HEADER] == 0 != (k + 1) % 0x100)
  {
    var p1 := Write(p, Open);
    var level := (k + 1) % 0x100;
    assert p1.buf[HEADER + 1 + k] == level;
    var p2 := Write(p1, Close);
    assert p2.open == if level != 0 then At(HEADER + 1 + k - level) else Null;
    assert p2.buf[HEADER] == 0;
  }

  /** It is encoded if and only if the inner structure starts less than 256 bytes
      behind the outer one; else the outer one never gets its length. */
  lemma FarStructureIsLost(k: nat, v: nat, header: seq<Byte>)
    requires |header| == HEADER
    ensures var ts := FarStructure(k, v);
      && AllWellFormed(ts) && Balanced(ts) && (Near(ts) <==> k < 255)
      && (Delivered(header, WriteAll(ts)) == Sent(header + Encode(Parse(ts).0)) <==> k < 255)
  {
    hide Encode, Parse, Depth, Near, Delivered, Write, Execute, CloseNear, WriteAll, ExecuteAll, Total;
    var t1 := [Open] + Bytes(k, v);
    OpenAndBytes(k, v);
    WriteLast(t1, Open);
    ExecuteLast(START, t1, Open);
    var t2 := t1 + [Open];
    WriteLast(t2, Close);
    ExecuteLast(START, t2, Close);
    var t3 := t2 + [Close];
    WriteLast(t3, Close);
    ExecuteLast(START, t3, Close);
    var ts := t3 + [Close];
    assert ts == FarStructure(k, v);
    BracketsOnStack(After(t1), k);
    if k < 255 {
      StructureWritten(header, ts);
    } else {
      BracketsInPass(WriteAll(t1), k);
      EncodedLength(ts, k);
      NotDelivered(header, WriteAll(ts), Encode(Parse(ts).0), (k + 1) % 0x100);
    }
  }

  /** The first byte of the encoding is the length of the outer structure. */
  lemma EncodedLength(ts: seq<Token>, k: nat)
    requires AllWellFormed(ts) && Balanced(ts) && |After(ts).buf| == HEADER + 2 + k
    ensures Encode(Parse(ts).0) == After(ts).buf[HEADER..]
  {
    hide Encode, Parse, ExecuteAll, Execute, Total, Flatten, Depth;
    BalancedIsStructure(ts);
    MachineEncodes(START, Parse(ts).0);
  }

  lemma NotDelivered(header: seq<Byte>, p: Pass, enc: seq<Byte>, length: Byte)
    requires |header| == HEADER < |p.buf| && enc != [] && enc[0] == length
    requires p.status == Running ==> p.buf[HEADER] == 0 != length
    ensures Delivered(header, p) != Sent(header + enc)
  {
    if p.status == Running {
      assert (header + p.buf[HEADER..])[HEADER] == 0;
      assert (header + enc)[HEADER] == length;
    }
  }
}
