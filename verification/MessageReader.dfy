/** The other side of `sendf`: an application that reads a message by the same
    format. Where it gets the arguments back, the encoding is right. */
module MessageReader {
  import opened MessageFormat
  import opened Sendf
  import opened Words

  /** What was read and what is left, if the bytes have the form expected. */
  datatype Reading = Read(items: seq<Item>, rest: seq<Byte>) | Unreadable

  /** Numbers by their width, strings by their count, structures by their length
      byte: their contents are read by themselves, and nothing may be left. */
  function ReadItem(shape: Item, b: seq<Byte>): Reading {
    match shape
    case Struct(inner) =>
      if b == [] || |b| - 1 < b[0] then Unreadable
      else
        (match ReadItems(inner, b[1..][..b[0]])
         case Read(items, rest) => if rest == [] then Read([Struct(items)], b[1..][b[0]..]) else Unreadable
         case Unreadable => Unreadable)
    case Atom(t) => ReadAtom(t, b)
  }

  function ReadAtom(t: Token, b: seq<Byte>): Reading {
    match t
    case ByteArg(_) => if |b| < 1 then Unreadable else Read([Atom(ByteArg(b[0]))], b[1..])
    case WordArg(_) => if |b| < 2 then Unreadable else Read([Atom(WordArg(WordOf(b[..2])))], b[2..])
    case DwordArg(_) => if |b| < 4 then Unreadable else Read([Atom(DwordArg(DwordOf(b[..4])))], b[4..])
    case StringArg(_, letter) =>
      if b == [] || |b| - 1 < b[0] then Unreadable
      else Read([Atom(StringArg(b[1..][..b[0]], letter))], b[1..][b[0]..])
    case _ => Read([Atom(t)], b)
  }

  function ReadItems(shape: seq<Item>, b: seq<Byte>): Reading {
    if shape == [] then Read([], b)
    else
      match ReadItem(shape[0], b)
      case Unreadable => Unreadable
      case Read(first, rest) =>
        match ReadItems(shape[1..], rest)
        case Unreadable => Unreadable
        case Read(items, rest') => Read(first + items, rest')
  }

  /** The arguments as far as their directives take them. */
  function Taken(t: Token): Token {
    match t
    case ByteArg(v) => ByteArg(v % 0x100)
    case WordArg(v) => WordArg(v % 0x1_0000)
    case DwordArg(v) => DwordArg(v % 0x1_0000_0000)
    case _ => t
  }

  function TakenItem(i: Item): Item {
    match i
    case Atom(t) => Atom(Taken(t))
    case Struct(items) => Struct(TakenItems(items))
  }

  function TakenItems(items: seq<Item>): seq<Item> {
    if items == [] then [] else [TakenItem(items[0])] + TakenItems(items[1..])
  }

  lemma AtomReadBack(t: Token, p: seq<Byte>, rest: seq<Byte>)
    requires WellFormed(t) && !t.Open? && !t.Close? && p <= Put(t) + rest
    ensures ReadAtom(t, p) ==
            if |Put(t)| <= |p| then Read([Atom(Taken(t))], p[|Put(t)|..]) else Unreadable
  {
    hide WordBytes, DwordBytes, WordOf, DwordOf;
    match t
    case WordArg(v) =>
      WordRoundTrip(v % 0x1_0000);
      assert 2 <= |p| ==> p[..2] == Put(t);
    case DwordArg(v) =>
      DwordRoundTrip(v % 0x1_0000_0000);
      assert 4 <= |p| ==> p[..4] == Put(t);
    case StringArg(s, _) =>
      assert p != [] ==> p[0] == |s|;
      assert 1 + |s| <= |p| ==> p[1..][..|s|] == s && p[1..][|s|..] == p[1 + |s|..];
    case _ =>
  }

  /** From the encoding, with or without anything behind it, the reader gets the
      arguments if every structure's contents fit its length byte; from less than
      the encoding, or with a structure that does not fit, it gets nothing. */
  lemma {:induction false} PrefixReadBack(items: seq<Item>, p: seq<Byte>, rest: seq<Byte>)
    requires ItemsOk(items) && p <= Encode(items) + rest
    ensures ReadItems(items, p) ==
            if Fits(items) && |Encode(items)| <= |p| then Read(TakenItems(items), p[|Encode(items)|..]) else Unreadable
    decreases items
  {
    hide ReadItem, EncodeItem, TakenItem;
    if items != [] {
      var e, more := EncodeItem(items[0]), Encode(items[1..]);
      assert Encode(items) + rest == e + (more + rest);
      ItemReadBack(items[0], p, more + rest);
      if |e| <= |p| {
        assert p[|e|..] <= more + rest;
        PrefixReadBack(items[1..], p[|e|..], rest);
        assert |e + more| <= |p| ==> p[|e|..][|more|..] == p[|e + more|..];
      }
    }
  }

  lemma {:induction false} ItemReadBack(i: Item, p: seq<Byte>, rest: seq<Byte>)
    requires ItemOk(i) && p <= EncodeItem(i) + rest
    ensures ReadItem(i, p) ==
            if FitsItem(i) && |EncodeItem(i)| <= |p| then Read([TakenItem(i)], p[|EncodeItem(i)|..]) else Unreadable
    decreases i
  {
    match i
    case Atom(t) => AtomReadBack(t, p, rest);
    case Struct(items) =>
      var enc := Encode(items);
      if p != [] && p[0] <= |p| - 1 {
        assert p[0] == |enc| % 0x100;
        assert p[1..][..p[0]] == enc[..p[0]];
        assert p[1..][..p[0]] <= enc + [];
        PrefixReadBack(items, p[1..][..p[0]], []);
        assert |enc| <= 0xff ==> p[1..][|enc|..] == p[1 + |enc|..];
      }
  }

  /** A message is read back if and only if its structures fit their length
      bytes; then its header and its arguments are those `sendf` was called with. */
  lemma MessageReadBack(header: seq<Byte>, items: seq<Item>)
    requires ItemsOk(items) && |header| == HEADER
    ensures ReadItems(items, (header + Encode(items))[HEADER..]) ==
            if Fits(items) then Read(TakenItems(items), []) else Unreadable
  {
    assert (header + Encode(items))[HEADER..] == Encode(items);
    PrefixReadBack(items, Encode(items), []);
  }

  lemma HeaderReadBack(length: Word, applId: Word, command: Word, number: Word, id: Dword)
    ensures var h := Header(length, applId, command, number, id);
            && WordOf(h[0..2]) == length && WordOf(h[2..4]) == applId && WordOf(h[4..6]) == command
            && WordOf(h[6..8]) == number && DwordOf(h[8..12]) == id
  {
    hide WordBytes, DwordBytes, WordOf, DwordOf;
    WordRoundTrip(length);
    WordRoundTrip(applId);
    WordRoundTrip(command);
    WordRoundTrip(number);
    DwordRoundTrip(id);
    var h := Header(length, applId, command, number, id);
    assert h[0..2] == WordBytes(length) && h[2..4] == WordBytes(applId) && h[4..6] == WordBytes(command);
    assert h[6..8] == WordBytes(number) && h[8..12] == DwordBytes(id);
  }
}
