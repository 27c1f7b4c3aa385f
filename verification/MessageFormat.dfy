/** What `sendf` is asked to encode (kernel/capifunc.c:265-418): a format string
    with its arguments, read as a list of tokens, and the CAPI structure it
    describes, written by a recursive encoder. */
module MessageFormat {
  import opened Words

  /** One directive with the argument it takes. */
  datatype Token =
    | ByteArg(v: nat)
    | WordArg(v: nat)
    | DwordArg(v: nat)
    | StringArg(s: seq<Byte>, letter: char)   // 's' or 'S': a counted string
    | Open
    | Close
    | Other(c: char)                          // ignored by both passes

  predicate WellFormed(t: Token) {
    match t
    case StringArg(s, letter) => |s| <= 255 && (letter == 's' || letter == 'S')
    case Other(c) => c !in "bwdsS()"
    case _ => true
  }

  datatype Arg = Number(v: nat) | CountedString(s: seq<Byte>)

  function Letter(t: Token): char {
    match t
    case ByteArg(_) => 'b'
    case WordArg(_) => 'w'
    case DwordArg(_) => 'd'
    case StringArg(_, letter) => letter
    case Open => '('
    case Close => ')'
    case Other(c) => c
  }

  function Letters(ts: seq<Token>): (f: string)
    ensures |f| == |ts| && forall i | 0 <= i < |ts| :: f[i] == Letter(ts[i])
  {
    seq(|ts|, i requires 0 <= i < |ts| => Letter(ts[i]))
  }

  function ArgOf(t: Token): seq<Arg> {
    match t
    case ByteArg(v) => [Number(v)]
    case WordArg(v) => [Number(v)]
    case DwordArg(v) => [Number(v)]
    case StringArg(s, _) => [CountedString(s)]
    case _ => []
  }

  function ArgsOf(ts: seq<Token>): seq<Arg>
    decreases |ts|
  {
    if ts == [] then [] else ArgsOf(ts[..|ts| - 1]) + ArgOf(ts[|ts| - 1])
  }

  /** Bytes of a directive other than a parenthesis. */
  function Put(t: Token): (b: seq<Byte>)
    requires WellFormed(t)
  {
    match t
    case ByteArg(v) => [v % 0x100]
    case WordArg(v) => WordBytes(v % 0x1_0000)
    case DwordArg(v) => DwordBytes(v % 0x1_0000_0000)
    case StringArg(s, _) => [|s|] + s
    case _ => []
  }

  function Size(t: Token): nat
    requires WellFormed(t)
  {
    if t.Open? then 1 else |Put(t)|
  }

  predicate AllWellFormed(ts: seq<Token>) {
    forall t | t in ts :: WellFormed(t)
  }

  function Total(ts: seq<Token>): nat
    requires AllWellFormed(ts)
    decreases |ts|
  {
    if ts == [] then 0 else Total(ts[..|ts| - 1]) + Size(ts[|ts| - 1])
  }

  // ------------------------------------------------------------- the structure

  datatype Item = Atom(t: Token) | Struct(items: seq<Item>)

  predicate ItemOk(i: Item) {
    match i
    case Atom(t) => WellFormed(t) && !t.Open? && !t.Close?
    case Struct(items) => ItemsOk(items)
  }

  predicate ItemsOk(items: seq<Item>) {
    items == [] || (ItemOk(items[0]) && ItemsOk(items[1..]))
  }

  function Flatten(items: seq<Item>): seq<Token> {
    if items == [] then [] else FlattenItem(items[0]) + Flatten(items[1..])
  }

  function FlattenItem(i: Item): seq<Token> {
    match i
    case Atom(t) => [t]
    case Struct(items) => [Open] + Flatten(items) + [Close]
  }

  /** The recursive encoder: a structure is its length byte and its contents. */
  function Encode(items: seq<Item>): seq<Byte>
    requires ItemsOk(items)
  {
    if items == [] then [] else EncodeItem(items[0]) + Encode(items[1..])
  }

  function EncodeItem(i: Item): seq<Byte>
    requires ItemOk(i)
  {
    match i
    case Atom(t) => Put(t)
    case Struct(items) => [|Encode(items)| % 0x100] + Encode(items)
  }

  // ---------------------------------------------- balanced tokens are structures

  /** Nesting depth after the tokens, or -1 once a parenthesis closed too many. */
  function Depth(ts: seq<Token>): (d: int)
    ensures -1 <= d
    decreases |ts|
  {
    if ts == [] then 0
    else
      var d := Depth(ts[..|ts| - 1]);
      match ts[|ts| - 1]
      case Open => if d < 0 then d else d + 1
      case Close => if d < 0 then d else d - 1
      case _ => d
  }

  predicate Balanced(ts: seq<Token>) {
    Depth(ts) == 0
  }

  lemma {:induction false} DepthConcat(a: seq<Token>, b: seq<Token>)
    requires 0 <= Depth(a)
    ensures 0 <= Depth(b) ==> Depth(a + b) == Depth(a) + Depth(b)
    decreases |b|
  {
    if b == [] {
      assert a + b == a;
    } else {
      var m := |b| - 1;
      assert (a + b)[..|a + b| - 1] == a + b[..m];
      DepthConcat(a, b[..m]);
    }
  }

  lemma {:induction false} FlattenBalanced(items: seq<Item>)
    requires ItemsOk(items)
    ensures Balanced(Flatten(items))
  {
    if items != [] {
      FlattenItemBalanced(items[0]);
      FlattenBalanced(items[1..]);
      DepthConcat(FlattenItem(items[0]), Flatten(items[1..]));
    }
  }

  lemma {:induction false} FlattenItemBalanced(i: Item)
    requires ItemOk(i)
    ensures Balanced(FlattenItem(i))
  {
    match i
    case Atom(t) =>
      assert [t][..0] == [];
    case Struct(items) =>
      FlattenBalanced(items);
      var ts := [Open] + Flatten(items);
      assert [Open][..0] == [] && Depth([Open]) == 1;
      DepthConcat([Open], Flatten(items));
      assert (ts + [Close])[..|ts + [Close]| - 1] == ts;
  }

  /** The structure that a list of tokens describes, up to an unmatched close. */
  function Parse(ts: seq<Token>): (r: (seq<Item>, seq<Token>))
    requires AllWellFormed(ts)
    ensures ItemsOk(r.0) && AllWellFormed(r.1) && |r.1| <= |ts|
    ensures r.1 == [] || r.1[0] == Close || r.1[0] == Open
    decreases |ts|
  {
    if ts == [] || ts[0] == Close then ([], ts)
    else if ts[0] == Open then
      var (inner, rest) := Parse(ts[1..]);
      if rest == [] || rest[0] != Close then ([], ts)
      else
        var (more, rest') := Parse(rest[1..]);
        ([Struct(inner)] + more, rest')
    else
      var (more, rest) := Parse(ts[1..]);
      ([Atom(ts[0])] + more, rest)
  }

  lemma {:induction false} ParseFlatten(ts: seq<Token>)
    requires AllWellFormed(ts)
    ensures Flatten(Parse(ts).0) + Parse(ts).1 == ts
    decreases |ts|
  {
    if ts == [] || ts[0] == Close {
    } else if ts[0] == Open {
      ParseFlatten(ts[1..]);
      var (inner, rest) := Parse(ts[1..]);
      if rest != [] && rest[0] == Close {
        ParseFlatten(rest[1..]);
        var (more, rest') := Parse(rest[1..]);
        StructTokens(ts, inner, rest, more, rest');
      }
    } else {
      ParseFlatten(ts[1..]);
      var (more, rest) := Parse(ts[1..]);
      var items := [Atom(ts[0])] + more;
      assert items[1..] == more;
      assert Flatten(items) == [ts[0]] + Flatten(more);
    }
  }

  lemma StructTokens(ts: seq<Token>, inner: seq<Item>, rest: seq<Token>, more: seq<Item>, rest': seq<Token>)
    requires ts != [] && ts[0] == Open && ts[1..] == Flatten(inner) + rest
    requires rest != [] && rest[0] == Close && rest[1..] == Flatten(more) + rest'
    ensures Flatten([Struct(inner)] + more) + rest' == ts
  {
    var items, a, b := [Struct(inner)] + more, Flatten(inner), Flatten(more);
    assert items[1..] == more;
    assert Flatten(items) == [Open] + a + [Close] + b;
    assert ts == [Open] + (a + rest) && rest == [Close] + (b + rest');
  }

  lemma {:induction false} DepthNegative(a: seq<Token>, b: seq<Token>)
    requires Depth(a) == -1
    ensures Depth(a + b) == -1
    decreases |b|
  {
    if b == [] {
      assert a + b == a;
    } else {
      assert (a + b)[..|a + b| - 1] == a + b[..|b| - 1];
      DepthNegative(a, b[..|b| - 1]);
    }
  }

  /** What parsing leaves over tells the depth. */
  lemma {:induction false} ParseRest(ts: seq<Token>)
    requires AllWellFormed(ts)
    ensures var rest := Parse(ts).1;
      if rest == [] then Depth(ts) == 0 else if rest[0] == Close then Depth(ts) == -1 else Depth(ts) >= 1
    decreases |ts|
  {
    var (items, rest) := Parse(ts);
    ParseFlatten(ts);
    FlattenBalanced(items);
    if rest == [] {
      assert ts == Flatten(items);
    } else if rest[0] == Close {
      var a := Flatten(items) + [Close];
      assert a[..|a| - 1] == Flatten(items);
      assert ts == a + rest[1..];
      DepthNegative(a, rest[1..]);
    } else {
      UnclosedDepth(ts);
    }
  }

  lemma DepthFirst(ts: seq<Token>)
    requires ts != [] && ts[0] != Close && 0 <= Depth(ts[1..])
    ensures Depth(ts) == Depth(ts[1..]) + if ts[0] == Open then 1 else 0
  {
    var a := [ts[0]];
    assert a[..0] == [] && Depth(a) == if ts[0] == Open then 1 else 0;
    assert ts == a + ts[1..];
    DepthConcat(a, ts[1..]);
  }

  lemma {:induction false} UnclosedDepth(ts: seq<Token>)
    requires AllWellFormed(ts) && Parse(ts).1 != [] && Parse(ts).1[0] == Open
    ensures Depth(ts) >= 1
    decreases |ts|
  {
    if ts[0] == Open {
      var (inner, rest) := Parse(ts[1..]);
      ParseFlatten(ts[1..]);
      FlattenBalanced(inner);
      if rest == [] {
        assert ts[1..] == Flatten(inner);
        DepthFirst(ts);
      } else if rest[0] == Close {
        UnclosedDepth(rest[1..]);
        ClosedThenMore(ts, inner, rest);
      } else {
        UnclosedDepth(ts[1..]);
        DepthFirst(ts);
      }
    } else {
      UnclosedDepth(ts[1..]);
      DepthFirst(ts);
    }
  }

  lemma ClosedThenMore(ts: seq<Token>, inner: seq<Item>, rest: seq<Token>)
    requires ItemsOk(inner) && ts != [] && ts[0] == Open && ts[1..] == Flatten(inner) + rest
    requires rest != [] && rest[0] == Close && 0 <= Depth(rest[1..])
    ensures Depth(ts) == Depth(rest[1..])
  {
    var a := FlattenItem(Struct(inner));
    FlattenItemBalanced(Struct(inner));
    assert ts == a + rest[1..];
    DepthConcat(a, rest[1..]);
  }

  /** Every balanced format is a structure, and only those are. */
  lemma BalancedIsStructure(ts: seq<Token>)
    requires AllWellFormed(ts)
    ensures Balanced(ts) <==> exists items :: ItemsOk(items) && Flatten(items) == ts
    ensures Balanced(ts) ==> ItemsOk(Parse(ts).0) && Flatten(Parse(ts).0) == ts
  {
    ParseFlatten(ts);
    ParseRest(ts);
    if items :| ItemsOk(items) && Flatten(items) == ts {
      FlattenBalanced(items);
    }
  }
}
