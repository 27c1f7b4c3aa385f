/** The configuration file as a whole (dialog/rc.c): what _dialog_create_rc
    writes and what _dialog_parse_rc makes of a file. */
module RcFile {
  import opened Dialog
  import opened RcLine
  import RcAttr

  type Attr = RcAttr.Attr

  /** Numbers, strings, booleans and attributes. */
  datatype Value = Number(n: int) | String(s: string) | Boolean(b: bool) | Attribute(a: Attr)

  datatype Var = Var(name: string, value: Value, comment: string)

  /** `%d` for a number that is not negative. */
  function Digits(n: nat): (s: string)
    ensures s != "" && forall c | c in s :: '0' <= c <= '9'
  {
    var d := [(n % 10) as char + '0'];
    if n < 10 then d else Digits(n / 10) + d
  }

  function Decimal(n: int): string {
    if n < 0 then "-" + Digits(-n) else Digits(n)
  }

  predicate IsDigit(c: char) {
    '0' <= c <= '9'
  }

  /** The digits at the start of a string, as a number behind `n`. */
  function Count(s: string, n: nat): nat {
    if s != "" && IsDigit(s[0]) then Count(s[1..], 10 * n + (s[0] - '0') as nat) else n
  }

  predicate IsSpace(c: char) {
    c == ' ' || '\t' <= c <= '\r'
  }

  function Atoi(s: string): int {
    if s == "" then 0
    else if IsSpace(s[0]) then Atoi(s[1..])
    else if s[0] == '-' then 0 - Count(s[1..], 0)
    else if s[0] == '+' then Count(s[1..], 0)
    else Count(s, 0)
  }

  lemma {:induction false} CountConcat(s: string, c: char, n: nat)
    requires forall d | d in s :: IsDigit(d)
    requires IsDigit(c)
    ensures Count(s + [c], n) == 10 * Count(s, n) + (c - '0') as nat
    decreases s
  {
    if s == "" {
      assert s + [c] == [c] && [c][1..] == "";
    } else {
      assert s[0] in s;
      assert (s + [c])[1..] == s[1..] + [c];
      CountConcat(s[1..], c, 10 * n + (s[0] - '0') as nat);
    }
  }

  lemma {:induction false} CountDigits(n: nat)
    ensures Count(Digits(n), 0) == n
    decreases n
  {
    var c := (n % 10) as char + '0';
    if n < 10 {
      assert Digits(n) == [c] && [c][1..] == "";
    } else {
      CountDigits(n / 10);
      CountConcat(Digits(n / 10), c, 0);
    }
  }

  lemma {:induction false} CountOver(d: string, rest: string, n: nat)
    requires forall c | c in d :: IsDigit(c)
    requires rest != "" ==> !IsDigit(rest[0])
    ensures Count(d + rest, n) == Count(d, n)
    decreases d
  {
    if d == "" {
      assert d + rest == rest;
    } else {
      assert (d + rest)[1..] == d[1..] + rest;
      assert d[0] in d;
      CountOver(d[1..], rest, 10 * n + (d[0] - '0') as nat);
    }
  }

  predicate Zeroes(z: string) {
    forall i | 0 <= i < |z| :: z[i] == '0'
  }

  lemma {:induction false} LeadingZeroes(z: string, d: string)
    requires Zeroes(z)
    ensures Count(z + d, 0) == Count(d, 0)
  {
    if z == "" {
      assert z + d == d;
    } else {
      assert (z + d)[1..] == z[1..] + d;
      LeadingZeroes(z[1..], d);
    }
  }

  lemma {:induction false} AtoiSkips(w: string, r: string)
    requires forall c | c in w :: IsSpace(c)
    ensures Atoi(w + r) == Atoi(r)
  {
    if w == "" {
      assert w + r == r;
    } else {
      assert (w + r)[1..] == w[1..] + r;
      assert w[0] in w;
      AtoiSkips(w[1..], r);
    }
  }

  /** A number is read whatever stands around it: space, a sign, zeroes in front
      and anything but a digit behind. */
  lemma AtoiReads(w: string, sign: string, z: string, n: nat, rest: string)
    requires forall c | c in w :: IsSpace(c)
    requires sign == "" || sign == "+" || sign == "-"
    requires Zeroes(z)
    requires rest != "" ==> !IsDigit(rest[0])
    ensures Atoi(w + (sign + ((z + Digits(n)) + rest))) == if sign == "-" then 0 - n else n as int
  {
    hide Atoi, Count, Digits;
    var d := z + Digits(n);
    AtoiSkips(w, sign + (d + rest));
    forall c | c in d
      ensures IsDigit(c)
    {
    }
    assert d[0] in d && (d + rest)[0] == d[0];
    CountOver(d, rest, 0);
    LeadingZeroes(z, Digits(n));
    CountDigits(n);
    AtoiSigned(sign, d + rest);
  }

  lemma AtoiSigned(sign: string, r: string)
    requires sign == "" || sign == "+" || sign == "-"
    requires r != "" && IsDigit(r[0])
    ensures Atoi(sign + r) == if sign == "-" then 0 - Count(r, 0) else Count(r, 0)
  {
    if sign == "" {
      assert sign + r == r;
    } else {
      assert (sign + r)[1..] == r;
    }
  }

  /** A text without a number at its start counts as zero. */
  lemma AtoiOfOther(w: string, r: string)
    requires forall c | c in w :: IsSpace(c)
    requires r == "" || !(IsSpace(r[0]) || IsDigit(r[0]) || r[0] == '-' || r[0] == '+')
    ensures Atoi(w + r) == 0
  {
    AtoiSkips(w, r);
  }

  /** `atoi` reads what `%d` wrote. */
  lemma NumberRoundTrip(n: int)
    ensures Atoi(Decimal(n)) == n
    ensures IsValue(Decimal(n)) && '\n' !in Decimal(n) && NUL !in Decimal(n)
  {
    var m: nat := if n < 0 then -n else n;
    var d := Digits(m);
    CountDigits(m);
    assert IsDigit(d[0]) by { assert d[0] in d; }
    assert IsDigit(d[|d| - 1]) by { assert d[|d| - 1] in d; }
    assert ("-" + d)[1..] == d;
  }

  function Show(v: Value): string
    requires v.Attribute? ==> v.a.fg < |RcAttr.COLORS| && v.a.bg < |RcAttr.COLORS|
  {
    match v
    case Number(n) => Decimal(n)
    case String(s) => "\"" + s + "\""
    case Boolean(b) => if b then "ON" else "OFF"
    case Attribute(a) => RcAttr.Text(a)
  }

  predicate IsQuote(c: char) {
    c == '"' || c == '\''
  }

  /** The value of a setting, for a variable that has a value like `old_` now. */
  function Read(old_: Value, text: string): RcAttr.Option<Value>
    requires text != ""
  {
    match old_
    case Number(_) => RcAttr.Some(Number(Atoi(text)))
    case String(_) =>
      if !IsQuote(text[0]) || !IsQuote(text[|text| - 1]) || |text| < 2 then RcAttr.None
      else RcAttr.Some(String(text[1..|text| - 1]))
    case Boolean(_) =>
      if RcAttr.Same(text, "ON") then RcAttr.Some(Boolean(true))
      else if RcAttr.Same(text, "OFF") then RcAttr.Some(Boolean(false))
      else RcAttr.None
    case Attribute(_) =>
      var a := RcAttr.Parse(text);
      if a == RcAttr.None then RcAttr.None else RcAttr.Some(Attribute(a.value))
  }

  predicate SameKind(u: Value, v: Value) {
    u.Number? == v.Number? && u.String? == v.String? && u.Boolean? == v.Boolean? && u.Attribute? == v.Attribute?
  }

  /** A value that fits on a line: strings without line ends, colours that
      have names. */
  predicate Writable(v: Value) {
    && (v.String? ==> '\n' !in v.s && NUL !in v.s)
    && (v.Attribute? ==> v.a.fg < |RcAttr.COLORS| && v.a.bg < |RcAttr.COLORS|)
  }

  lemma ValueRoundTrip(v: Value, u: Value)
    requires Writable(v) && SameKind(u, v)
    ensures IsValue(Show(v)) && Read(u, Show(v)) == RcAttr.Some(v)
    ensures '\n' !in Show(v) && NUL !in Show(v)
  {
    hide Atoi, Decimal, RcAttr.Parse, RcAttr.Text;
    match v
    case Number(n) => NumberRoundTrip(n);
    case String(s) => assert Show(v)[1..|Show(v)| - 1] == s;
    case Boolean(b) => SameWords();
    case Attribute(a) => RcAttr.RoundTrip(a);
  }

  /** A text that stands for a value. */
  ghost predicate StandsFor(text: string, v: Value) {
    match v
    case Number(n) => n == Atoi(text)
    case String(s) => exists q, q' :: IsQuote(q) && IsQuote(q') && text == [q] + s + [q']
    case Boolean(b) => RcAttr.Same(text, if b then "ON" else "OFF")
    case Attribute(a) => RcAttr.AttrText(text, a)
  }

  /** A setting is accepted for a variable with just the texts that stand for a
      value of its kind, and has that value then. */
  lemma ReadIff(u: Value, text: string, v: Value)
    requires text != ""
    ensures Read(u, text) == RcAttr.Some(v) <==> SameKind(u, v) && StandsFor(text, v)
  {
    hide Atoi, RcAttr.Parse, RcAttr.AttrText;
    match v
    case Number(_) =>
    case Boolean(_) => NotBoth(text);
    case Attribute(a) => RcAttr.ParseIff(text, a);
    case String(s) =>
      if q: char, q': char :| IsQuote(q) && IsQuote(q') && text == [q] + s + [q'] {
        assert text[0] == q && text[|text| - 1] == q' && text[1..|text| - 1] == s;
      }
      if u.String? && Read(u, text) == RcAttr.Some(v) {
        assert text == [text[0]] + s + [text[|text| - 1]];
      }
  }

  lemma NotBoth(text: string)
    ensures !(RcAttr.Same(text, "ON") && RcAttr.Same(text, "OFF"))
  {
  }

  lemma SameWords()
    ensures RcAttr.Same("ON", "ON") && RcAttr.Same("OFF", "OFF") && !RcAttr.Same("OFF", "ON")
  {
  }

  /** The place of a variable in the table, or the table's length. */
  function Index(t: seq<Var>, name: string): (i: nat)
    ensures i <= |t| && (i < |t| ==> t[i].name == name)
    ensures forall k | 0 <= k < i :: t[k].name != name
  {
    if t == [] || t[0].name == name then 0 else 1 + Index(t[1..], name)
  }

  /** One line of the file. */
  function Apply(t: seq<Var>, line: string): (r: RcAttr.Option<seq<Var>>)
  {
    match RcLine.Parse(line)
    case Empty => RcAttr.Some(t)
    case Comment => RcAttr.Some(t)
    case Bad => RcAttr.None
    case Setting(name, text) =>
      var i := Index(t, name);
      if i == |t| then RcAttr.None
      else
        SettingIsSpaced(line);
        var v := Read(t[i].value, text);
        if v == RcAttr.None then RcAttr.None else RcAttr.Some(t[i := t[i].(value := v.value)])
  }

  /** What fgets reads: up to a line end, or as much as the buffer holds. */
  function LineLength(s: string, room: nat): (n: nat)
    requires s != "" && 0 < room
    ensures 0 < n <= |s| && n <= room
    ensures '\n' !in s[..n - 1]
    decreases room
  {
    if s[0] == '\n' || |s| == 1 || room == 1 then 1
    else
      var n := LineLength(s[1..], room - 1);
      assert s[..n] == [s[0]] + s[1..][..n - 1];
      1 + n
  }

  datatype Result = Result(table: seq<Var>, code: int)

  /** A file; what comes before an error counts. */
  function ParseFile(t: seq<Var>, s: string): Result
    decreases |s|
  {
    if s == "" then Result(t, 0)
    else
      var n := LineLength(s, MAX_LEN - 1);
      if s[n - 1] != '\n' then Result(t, -1)
      else
        var r := Apply(t, s[..n - 1]);
        if r == RcAttr.None then Result(t, -1) else ParseFile(r.value, s[n..])
  }

  function Join(ls: seq<string>): string {
    if ls == [] then "" else ls[0] + "\n" + Join(ls[1..])
  }

  function ApplyAll(t: seq<Var>, ls: seq<string>): Result
    decreases |ls|
  {
    if ls == [] then Result(t, 0)
    else
      var r := Apply(t, ls[0]);
      if r == RcAttr.None then Result(t, -1) else ApplyAll(r.value, ls[1..])
  }

  predicate IsLine(l: string) {
    '\n' !in l && |l| < MAX_LEN - 1
  }

  lemma {:induction false} LineLengthAt(l: string, rest: string, room: nat)
    requires '\n' !in l && |l| < room
    ensures LineLength(l + "\n" + rest, room) == |l| + 1
    decreases |l|
  {
    var s := l + "\n" + rest;
    if l != "" {
      assert l[0] in l;
      assert s[1..] == l[1..] + "\n" + rest;
      LineLengthAt(l[1..], rest, room - 1);
    }
  }

  /** What fgets takes for no whole line: it ends without a line end, or there is
      none as far as the buffer goes. */
  predicate Unended(s: string) {
    s != "" && forall i | 0 <= i < |s| && i < MAX_LEN - 1 :: s[i] != '\n'
  }

  lemma {:induction false} NoLineEnd(s: string, room: nat)
    requires s != "" && 0 < room && forall i | 0 <= i < |s| && i < room :: s[i] != '\n'
    ensures s[LineLength(s, room) - 1] != '\n'
    decreases room
  {
    if |s| != 1 && room != 1 {
      assert s[0] != '\n';
      NoLineEnd(s[1..], room - 1);
    }
  }

  /** A file is read line by line, up to the first error; a rest that is no whole
      line is one. */
  lemma {:induction false} ParseJoin(t: seq<Var>, ls: seq<string>, rest: string)
    requires (forall l | l in ls :: IsLine(l)) && (rest == "" || Unended(rest))
    ensures var r := ApplyAll(t, ls);
            ParseFile(t, Join(ls) + rest) == if r.code == 0 && rest != "" then Result(r.table, -1) else r
    decreases |ls|
  {
    hide Apply, LineLength, Join, IsLine;
    if ls == [] {
      JoinNone(rest);
      if rest != "" {
        NoLineEnd(rest, MAX_LEN - 1);
      }
    } else {
      assert ls[0] in ls;
      var more := Join(ls[1..]) + rest;
      JoinFirst(ls, rest);
      FirstOf(ls[0], more);
      var r := Apply(t, ls[0]);
      if r != RcAttr.None {
        ParseJoin(r.value, ls[1..], rest);
      }
    }
  }

  lemma JoinNone(rest: string)
    ensures Join([]) + rest == rest
  {
  }

  lemma JoinFirst(ls: seq<string>, rest: string)
    requires ls != []
    ensures Join(ls) + rest == ls[0] + "\n" + (Join(ls[1..]) + rest)
  {
  }

  /** The first line, as fgets reads it, and what is behind it. */
  lemma FirstOf(l: string, more: string)
    requires IsLine(l)
    ensures var s := l + "\n" + more; var n := LineLength(s, MAX_LEN - 1);
            n == |l| + 1 && s[..n - 1] == l && s[n - 1] == '\n' && s[n..] == more
  {
    hide LineLength;
    LineLengthAt(l, more, MAX_LEN - 1);
  }

  /** Every file is of this form. */
  lemma {:induction false} LinesAndRest(s: string) returns (ls: seq<string>, rest: string)
    ensures (forall l | l in ls :: IsLine(l)) && (rest == "" || Unended(rest)) && s == Join(ls) + rest
    decreases |s|
  {
    ls, rest := [], s;
    if i :| 0 <= i < |s| && i < MAX_LEN - 1 && s[i] == '\n' {
      var k := FirstLineEnd(s, i);
      var ls', rest' := LinesAndRest(s[k + 1..]);
      ls, rest := [s[..k]] + ls', rest';
      assert ls[1..] == ls';
      assert s == s[..k] + "\n" + s[k + 1..];
      assert s == Join(ls) + rest;
    }
  }

  lemma {:induction false} FirstLineEnd(s: string, i: nat) returns (k: nat)
    requires i < |s| && i < MAX_LEN - 1 && s[i] == '\n'
    ensures k <= i && s[k] == '\n' && IsLine(s[..k])
  {
    k := i;
    if j :| 0 <= j < i && s[j] == '\n' {
      k := FirstLineEnd(s, j);
    }
  }

  /** All settings in front of the first error count; there is an error if and
      only if some line is none that can be applied. */
  lemma {:induction false} FirstError(t: seq<Var>, ls: seq<string>) returns (n: nat)
    ensures n <= |ls| && ApplyAll(t, ls[..n]) == Result(ApplyAll(t, ls).table, 0)
    ensures ApplyAll(t, ls).code == if n == |ls| then 0 else -1
    ensures n < |ls| ==> Apply(ApplyAll(t, ls).table, ls[n]) == RcAttr.None
    decreases |ls|
  {
    hide Apply;
    n := 0;
    if ls == [] {
      return;
    }
    var r := Apply(t, ls[0]);
    if r != RcAttr.None {
      n := FirstError(r.value, ls[1..]);
      n := n + 1;
      assert ls[..n][1..] == ls[1..][..n - 1];
    }
  }

  predicate IsRemark(l: string) {
    IsLine(l) && (l == "" || l[0] == '#')
  }

  predicate IsShort(s: string) {
    '\n' !in s && |s| < 40
  }

  function Remark(text: string, shape: string): (l: string)
    requires IsShort(text) && IsShort(shape)
    ensures IsRemark(l)
  {
    "# " + text + shape
  }

  /** The comment in front of the settings: where it comes from. */
  function Origin(k: nat): (l: string)
    ensures IsRemark(l)
  {
    if k == 1 then Remark("Run-time configuration file for dialog", "")
    else if k == 3 then Remark("Automatically generated by ", "\"dialog --create-rc <file>\"")
    else "#"
  }

  function KindName(k: nat): (s: string)
    ensures IsShort(s)
  {
    if k == 2 then "Number     -  "
    else if k == 3 then "String     -  "
    else if k == 4 then "Boolean    -  "
    else "Attribute  -  "
  }

  function KindShape(k: nat): (s: string)
    ensures IsShort(s)
  {
    if k == 2 then "<number>"
    else if k == 3 then "\"string\""
    else if k == 4 then "<ON|OFF>"
    else "(foreground,background,highlight?)"
  }

  /** ... and what each kind of value looks like. */
  function TypesOfValues(k: nat): (l: string)
    ensures IsRemark(l)
  {
    if k == 0 then Remark("Types of values:", "")
    else if 2 <= k <= 5 then Remark(KindName(k), KindShape(k))
    else "#"
  }

  function Header(): (ls: seq<string>)
    ensures forall l | l in ls :: IsRemark(l)
  {
    seq(6, k requires 0 <= k => Origin(k)) + seq(7, k requires 0 <= k => TypesOfValues(k)) + [""]
  }

  /** The lines for one variable. */
  function Entry(v: Var): (ls: seq<string>)
    requires Writable(v.value)
    ensures |ls| == 3
  {
    ["", "# " + v.comment, v.name + " = " + Show(v.value)]
  }

  predicate Printable(v: Var): (b: bool)
    ensures b ==> Writable(v.value)
  {
    && Writable(v.value)
    && IsName(v.name) && '\n' !in v.name && NUL !in v.name && '\n' !in v.comment && NUL !in v.comment
    && (forall l | l in Entry(v) :: |l| < MAX_LEN - 1)
  }

  predicate AllPrintable(t: seq<Var>) {
    forall v | v in t :: Printable(v)
  }

  function Entries(t: seq<Var>): seq<string>
    requires AllPrintable(t)
  {
    if t == [] then []
    else
      assert t[0] in t;
      Entry(t[0]) + Entries(t[1..])
  }

  lemma {:induction false} EntryAt(t: seq<Var>, k: nat)
    requires AllPrintable(t) && k < |t|
    ensures t[k] in t && |Entries(t)| == 3 * |t| && Entries(t)[3 * k..3 * k + 3] == Entry(t[k])
    decreases |t|
  {
    hide Entry;
    assert t[0] in t;
    var more := Entries(t[1..]);
    if 0 < k {
      EntryAt(t[1..], k - 1);
      assert Entries(t)[3 * k..3 * k + 3] == more[3 * (k - 1)..3 * (k - 1) + 3];
    } else if 1 < |t| {
      EntryAt(t[1..], 0);
    }
  }

  /** Each variable has its line in the file, behind a blank one and one that is
      a comment for the parser and holds the comment for the reader. */
  lemma CommentedSettings(t: seq<Var>, k: nat)
    requires AllPrintable(t) && k < |t|
    ensures var ls := Header() + Entries(t); var i := |Header()| + 3 * k;
            && i + 2 < |ls| && t[k] in t && Writable(t[k].value)
            && RcLine.Parse(ls[i]) == Empty
            && ls[i + 1] == "# " + t[k].comment && RcLine.Parse(ls[i + 1]) == Comment
            && RcLine.Parse(ls[i + 2]) == Setting(t[k].name, Show(t[k].value))
  {
    hide Entries, Entry, Header, Show, Printable, RcLine.Parse;
    EntryAt(t, k);
    ThreeAt(Header(), Entries(t), 3 * k);
    EntryLines(t[k]);
  }

  lemma ThreeAt(h: seq<string>, es: seq<string>, i: nat)
    requires i + 3 <= |es|
    ensures var s := es[i..i + 3];
            (h + es)[|h| + i] == s[0] && (h + es)[|h| + i + 1] == s[1] && (h + es)[|h| + i + 2] == s[2]
  {
  }

  lemma EntryLines(v: Var)
    requires Printable(v)
    ensures var e := Entry(v);
            && RcLine.Parse(e[0]) == Empty
            && e[1] == "# " + v.comment && RcLine.Parse(e[1]) == Comment
            && RcLine.Parse(e[2]) == Setting(v.name, Show(v.value))
  {
    hide Show;
    ValueRoundTrip(v.value, v.value);
    SpacedEntry(v.name, Show(v.value));
    SettingLine(v.name, Show(v.value));
  }

  lemma SettingLine(name: string, text: string)
    requires IsName(name) && IsValue(text)
    ensures RcLine.Parse(Spaced("", name, " ", " ", text, "")) == Setting(name, text)
  {
    RcLine.BlanksDoNotMatter("", name, " ", " ", text, "");
  }

  function Create(t: seq<Var>): string
    requires AllPrintable(t)
  {
    Join(Header() + Entries(t))
  }

  predicate DistinctNames(t: seq<Var>) {
    forall i, j | 0 <= i < j < |t| :: t[i].name != t[j].name
  }

  /** The same variables, with whatever values. */
  predicate SameTable(t: seq<Var>, u: seq<Var>) {
    |t| == |u| && forall i | 0 <= i < |t| ::
      t[i].name == u[i].name && t[i].comment == u[i].comment && SameKind(t[i].value, u[i].value)
  }

  lemma {:induction false} ApplyConcat(t: seq<Var>, u: seq<Var>, ls: seq<string>, ms: seq<string>)
    requires ApplyAll(t, ls) == Result(u, 0)
    ensures ApplyAll(t, ls + ms) == ApplyAll(u, ms)
    decreases |ls|
  {
    hide Apply;
    if ls == [] {
      assert ls + ms == ms;
    } else {
      assert (ls + ms)[1..] == ls[1..] + ms;
      ApplyConcat(Apply(t, ls[0]).value, u, ls[1..], ms);
    }
  }

  /** Comments and empty lines set nothing. */
  lemma CommentsSkipped(t: seq<Var>, l: string)
    requires l == "" || l[0] == '#'
    ensures Apply(t, l) == RcAttr.Some(t)
  {
  }

  lemma {:induction false} AllComments(t: seq<Var>, ls: seq<string>)
    requires forall l | l in ls :: l == "" || l[0] == '#'
    ensures ApplyAll(t, ls) == Result(t, 0)
    decreases |ls|
  {
    hide Apply;
    if ls != [] {
      CommentsSkipped(t, ls[0]);
      AllComments(t, ls[1..]);
    }
  }

  lemma SettingSets(u: seq<Var>, k: nat, v: Var)
    requires k < |u| && Printable(v) && DistinctNames(u)
    requires u[k].name == v.name && u[k].comment == v.comment && SameKind(u[k].value, v.value)
    ensures Apply(u, v.name + " = " + Show(v.value)) == RcAttr.Some(u[k := v])
  {
    hide RcLine.Parse, Show, Read;
    var text := Show(v.value);
    ValueRoundTrip(v.value, u[k].value);
    BlanksDoNotMatter("", v.name, " ", " ", text, "");
    SpacedEntry(v.name, text);
    assert Index(u, v.name) == k;
    assert u[k].(value := v.value) == v;
  }

  /** An entry sets its variable. */
  lemma EntrySets(u: seq<Var>, k: nat, v: Var)
    requires k < |u| && Printable(v) && DistinctNames(u)
    requires u[k].name == v.name && u[k].comment == v.comment && SameKind(u[k].value, v.value)
    ensures ApplyAll(u, Entry(v)) == Result(u[k := v], 0)
  {
    hide Apply, Show, DistinctNames, Printable, SameKind;
    var ls := Entry(v);
    SettingSets(u, k, v);
    CommentsSkipped(u, ls[0]);
    CommentsSkipped(u, ls[1]);
    Nothing(u[k := v]);
    assert [ls[2]][1..] == [] && ls[1..][1..] == [ls[2]] && ls[1..][0] == ls[1];
    assert ApplyAll(u, [ls[2]]) == Result(u[k := v], 0);
    assert ApplyAll(u, ls[1..]) == Result(u[k := v], 0);
  }

  lemma SpacedEntry(name: string, text: string)
    ensures name + " = " + text == Spaced("", name, " ", " ", text, "")
  {
    assert text + "" == text;
    assert "" + (name + (" " + ("=" + (" " + text)))) == name + (" " + ("=" + (" " + text)));
    assert " " + ("=" + (" " + text)) == " = " + text;
  }

  lemma {:induction false} EntriesSet(u: seq<Var>, t: seq<Var>, k: nat)
    requires SameTable(u, t) && DistinctNames(t) && k <= |t| && AllPrintable(t)
    requires u[..k] == t[..k]
    ensures ApplyAll(u, Entries(t[k..])) == Result(t, 0)
    decreases |t| - k
  {
    hide ApplyAll, Entry, Printable;
    if k == |t| {
      assert u == t by { assert u == u[..k] && t == t[..k]; }
      Nothing(u);
    } else {
      assert t[k] in t;
      EntrySets(u, k, t[k]);
      var w := u[k := t[k]];
      assert w[..k + 1] == t[..k + 1] by { assert u[..k] == t[..k]; }
      assert t[k..][1..] == t[k + 1..];
      EntriesSet(w, t, k + 1);
      ApplyConcat(u, w, Entry(t[k]), Entries(t[k + 1..]));
    }
  }

  lemma Nothing(u: seq<Var>)
    ensures ApplyAll(u, []) == Result(u, 0)
  {
  }

  lemma {:induction false} EntriesAreLines(t: seq<Var>)
    requires AllPrintable(t)
    ensures forall l | l in Entries(t) :: IsLine(l)
  {
    if t != [] {
      assert t[0] in t;
      ValueRoundTrip(t[0].value, t[0].value);
      EntriesAreLines(t[1..]);
    }
  }

  /** What was written is what is read, whatever the variables were before. */
  lemma FileRoundTrip(t: seq<Var>, u: seq<Var>)
    requires SameTable(u, t) && DistinctNames(t) && AllPrintable(t)
    ensures ParseFile(u, Create(t)) == Result(t, 0)
  {
    hide Apply, ApplyAll, Printable, Entries, ParseFile;
    var ls := Entries(t);
    EntriesAreLines(t);
    ParseJoin(u, Header() + ls, "");
    assert Join(Header() + ls) + "" == Join(Header() + ls);
    AllComments(u, Header());
    ApplyConcat(u, u, Header(), ls);
    EntriesSet(u, t, 0);
    assert t[0..] == t;
  }

  lemma {:induction false} JoinConcat(a: seq<string>, b: seq<string>)
    ensures Join(a + b) == Join(a) + Join(b)
  {
    if a == [] {
      assert a + b == b;
    } else {
      assert (a + b)[1..] == a[1..] + b;
      JoinConcat(a[1..], b);
    }
  }

  lemma JoinEntry(v: Var)
    requires Printable(v)
    ensures Join(Entry(v)) == "\n# " + v.comment + "\n" + v.name + " = " + Show(v.value) + "\n"
  {
    hide Show, Join;
    JoinThree("", "# " + v.comment, v.name + " = " + Show(v.value));
    Around("\n", "# ", v.comment, "\n" + ((v.name + " = " + Show(v.value)) + "\n"));
  }

  lemma JoinThree(a: string, b: string, c: string)
    ensures Join([a, b, c]) == a + ("\n" + (b + ("\n" + (c + "\n"))))
  {
    var ls := [a, b, c];
    assert ls[1..] == [b, c] && [b, c][1..] == [c] && [c][1..] == [];
    assert Join([c]) == c + "\n";
    assert Join([b, c]) == b + "\n" + Join([c]);
  }

  lemma Around(a: string, b: string, c: string, d: string)
    ensures a + ((b + c) + d) == ((a + b) + c) + d
  {
  }

  /** `_dialog_create_rc`, with the file's contents as its result. */
  method CreateRc(vars: array<Var>) returns (file: string)
    requires AllPrintable(vars[..])
    ensures file == Create(vars[..])
  {
    hide Entry, Show, Join;
    ghost var t := vars[..];
    file := Join(Header());
    JoinConcat(Header(), Entries(t));
    assert t[0..] == t;
    for i := 0 to vars.Length
      invariant AllPrintable(t[i..])
      invariant file + Join(Entries(t[i..])) == Create(t)
    {
      assert vars[i] == t[i] && t[i] in t && t[i..][1..] == t[i + 1..];
      ghost var before := file;
      JoinConcat(Entry(t[i]), Entries(t[i + 1..]));
      JoinEntry(t[i]);
      file := file + ("\n# " + vars[i].comment + "\n" + vars[i].name + " = " + Show(vars[i].value) + "\n");
      assert before + (Join(Entry(t[i])) + Join(Entries(t[i + 1..]))) == file + Join(Entries(t[i + 1..]));
    }
    NoEntries(file);
  }

  lemma NoEntries(file: string)
    ensures file + Join(Entries([])) == file
  {
  }

  /** One more character of a line that is not complete. */
  lemma NextOfLine(s: string, i: nat, room: nat)
    requires i < |s| && 0 < room
    ensures var more := s[i] != '\n' && i + 1 < |s| && 1 < room;
      LineLength(s[i..], room) == 1 + (if more then LineLength(s[i + 1..], room - 1) else 0)
  {
    assert s[i..][0] == s[i] && s[i..][1..] == s[i + 1..];
  }

  /** `fgets`: the next line into the buffer. */
  method Fgets(s: string, pos: nat, str: array<char>) returns (n: nat)
    requires pos < |s| && NUL !in s && str.Length == MAX_LEN + 1
    modifies str
    ensures n == LineLength(s[pos..], MAX_LEN - 1)
    ensures pos + n <= |s| && n < MAX_LEN && str[..n] == s[pos..pos + n] && str[n] == NUL
  {
    hide LineLength;
    n := 0;
    ghost var all := LineLength(s[pos..], MAX_LEN - 1);
    while true
      invariant pos + n < |s| && n < MAX_LEN - 1 && str[..n] == s[pos..pos + n]
      invariant all == n + LineLength(s[pos + n..], MAX_LEN - 1 - n)
      decreases MAX_LEN - n
    {
      var c := s[pos + n];
      NextOfLine(s, pos + n, MAX_LEN - 1 - n);
      str[n] := c;
      n := n + 1;
      if c == '\n' || pos + n == |s| || n == MAX_LEN - 1 {
        break;
      }
    }
    str[n] := NUL;
  }

  /** Store a setting's value, if it is one for this variable. */
  method SetValue(vars: array<Var>, i: nat, text: string) returns (ok: bool)
    requires i < vars.Length && 0 < |text| <= MAX_LEN && NUL !in text
    modifies vars
    ensures var v := Read(old(vars[i]).value, text);
            && (ok <==> v != RcAttr.None)
            && vars[..] == if ok then old(vars[..])[i := old(vars[i]).(value := v.value)] else old(vars[..])
  {
    hide RcAttr.Parse, Atoi;
    match vars[i].value {
      case Number(_) =>
        vars[i] := vars[i].(value := Number(Atoi(text)));
      case String(_) =>
        if !IsQuote(text[0]) || !IsQuote(text[|text| - 1]) || |text| < 2 {
          return false;
        }
        vars[i] := vars[i].(value := String(text[1..|text| - 1]));
      case Boolean(_) =>
        if RcAttr.Same(text, "ON") {
          vars[i] := vars[i].(value := Boolean(true));
        } else if RcAttr.Same(text, "OFF") {
          vars[i] := vars[i].(value := Boolean(false));
        } else {
          return false;
        }
      case Attribute(_) =>
        var valid, fg, bg, hl := RcAttr.StrToAttr(text);
        if !valid {
          return false;
        }
        vars[i] := vars[i].(value := Attribute(RcAttr.Attr.Attr(fg, bg, hl)));
    }
    ok := true;
  }

  method Find(vars: array<Var>, name: string) returns (i: nat)
    ensures i == Index(vars[..], name)
  {
    i := 0;
    ghost var t := vars[..];
    assert t[0..] == t;
    while i < vars.Length && vars[i].name != name
      invariant i <= vars.Length && Index(t, name) == i + Index(t[i..], name)
    {
      assert t[i..][0] == vars[i] && t[i..][1..] == t[i + 1..];
      i := i + 1;
    }
  }

  /** One line, without its line end, as a C string in the buffer. */
  method ParseRcLine(vars: array<Var>, str: array<char>, ghost line: string) returns (ok: bool)
    requires Ended(str[..], 0) && CString(str[..], 0) == line && |line| < MAX_LEN && NUL !in line
    modifies vars, str
    ensures var r := Apply(old(vars[..]), line);
            && (ok <==> r != RcAttr.None)
            && vars[..] == if ok then r.value else old(vars[..])
  {
    hide RcLine.Parse, Read, CString;
    var kind, name, value := ParseLine(str);
    if kind == LINE_ERROR {
      return false;
    }
    if kind == LINE_OK {
      PartsOfLine(line);
      var i := Find(vars, CString(str[..], name));
      if i == vars.Length {
        return false;
      }
      ok := SetValue(vars, i, CString(str[..], value));
      return;
    }
    ok := true;
  }

  /** The value is part of its line. */
  lemma PartsOfLine(line: string)
    requires RcLine.Parse(line).Setting?
    ensures var v := RcLine.Parse(line).value;
            0 < |v| <= |line| && (NUL !in line ==> NUL !in v)
  {
    SettingIsSpaced(line);
    var v := RcLine.Parse(line).value;
    var w0: string, w1: string, w2: string, w3: string :| line == Spaced(w0, RcLine.Parse(line).name, w1, w2, v, w3);
    assert forall c | c in v :: c in line;
  }

  /** The next line without its line end, if it is there. */
  method ReadLine(file: string, pos: nat, str: array<char>) returns (n: nat, complete: bool)
    requires pos < |file| && NUL !in file && str.Length == MAX_LEN + 1
    modifies str
    ensures n == LineLength(file[pos..], MAX_LEN - 1) && 0 < n && pos + n <= |file|
    ensures complete <==> file[pos..][n - 1] == '\n'
    ensures complete ==> Ended(str[..], 0) && CString(str[..], 0) == file[pos..][..n - 1]
  {
    hide LineLength, CString, Ended;
    n := Fgets(file, pos, str);
    assert file[pos..][n - 1] == file[pos..pos + n][n - 1] == str[..n][n - 1];
    complete := str[n - 1] == '\n';
    if complete {
      ghost var b := str[..];
      LineInBuffer(file, pos, b, n);
      str[n - 1] := NUL;
      assert str[..] == b[n - 1 := NUL];
    }
  }

  lemma LineInBuffer(file: string, pos: nat, b: seq<char>, n: nat)
    requires NUL !in file && 0 < n <= |b| && pos + n <= |file| && b[..n] == file[pos..pos + n]
    ensures var c := b[n - 1 := NUL];
            Ended(c, 0) && CString(c, 0) == file[pos..][..n - 1]
  {
    hide CString;
    var c, line := b[n - 1 := NUL], file[pos..][..n - 1];
    assert c[0..n - 1] == b[..n][..n - 1] == line;
    CStringIs(c, 0, line);
  }

  lemma Onward(s: string, pos: nat, n: nat)
    requires pos + n <= |s|
    ensures s[pos..][n..] == s[pos + n..]
  {
  }

  /** `_dialog_parse_rc`, given the file it found. */
  method ParseRc(vars: array<Var>, file: string) returns (code: int)
    requires NUL !in file
    modifies vars
    ensures Result(vars[..], code) == ParseFile(old(vars[..]), file)
  {
    hide Apply, LineLength, CString;
    var str := new char[MAX_LEN + 1];
    var pos: nat := 0;
    assert file[0..] == file;
    while pos < |file|
      invariant pos <= |file|
      invariant ParseFile(vars[..], file[pos..]) == ParseFile(old(vars[..]), file)
      modifies vars, str
    {
      ghost var rest := file[pos..];
      var n, complete := ReadLine(file, pos, str);
      if !complete {
        return -1;
      }
      var ok := ParseRcLine(vars, str, rest[..n - 1]);
      if !ok {
        return -1;
      }
      Onward(file, pos, n);
      pos := pos + n;
    }
    assert file[pos..] == "";
    code := 0;
  }
}
