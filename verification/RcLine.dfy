/** One line of the configuration file (dialog/rc.c, parse_line): a C string
    that is cut up in place into a name and a value. */
module RcLine {
  import opened Dialog

  predicate Blank(c: char) {
    c == ' ' || c == '\t'
  }

  predicate Blanks(s: string) {
    forall c | c in s :: Blank(c)
  }

  /** The C string at offset `i` of a buffer. */
  function CString(b: seq<char>, i: nat): (s: string)
    requires i <= |b|
    ensures i + |s| <= |b|
    decreases |b| - i
  {
    if i == |b| || b[i] == NUL then "" else [b[i]] + CString(b, i + 1)
  }

  lemma {:induction false} CStringIs(b: seq<char>, i: nat, s: string)
    requires NUL !in s && i + |s| < |b| && b[i..i + |s|] == s && b[i + |s|] == NUL
    ensures CString(b, i) == s
    decreases |s|
  {
    if s != "" {
      assert b[i..i + |s|][1..] == b[i + 1..i + |s|] == s[1..];
      assert s[0] == b[i] && s[0] in s;
      CStringIs(b, i + 1, s[1..]);
    }
  }

  /** A buffer with a C string from `i` on. */
  predicate Ended(b: seq<char>, i: nat) {
    i <= |b| && i + |CString(b, i)| < |b|
  }

  /** What follows a character that is not NUL. */
  lemma CStringNext(b: seq<char>, i: nat)
    requires Ended(b, i)
    ensures b[i] == NUL <==> CString(b, i) == ""
    ensures b[i] != NUL ==> CString(b, i)[0] == b[i] && CString(b, i)[1..] == CString(b, i + 1) && Ended(b, i + 1)
  {
  }

  lemma {:induction false} CStringFrom(b: seq<char>, i: nat, j: nat)
    requires i <= |b| && i <= j <= i + |CString(b, i)|
    ensures j <= |b| && CString(b, i)[j - i..] == CString(b, j) && CString(b, i)[..j - i] == b[i..j]
    ensures NUL !in b[i..j] && (Ended(b, i) ==> Ended(b, j))
    decreases j - i
  {
    if i < j {
      CStringFrom(b, i + 1, j);
      assert b[i..j] == [b[i]] + b[i + 1..j];
      assert CString(b, i)[..j - i] == [b[i]] + CString(b, i + 1)[..j - i - 1];
    }
  }

  /** Without the blanks at its start. */
  function Skipped(s: string): (t: string)
    ensures |t| <= |s| && (t != "" ==> !Blank(t[0]))
  {
    if s != "" && Blank(s[0]) then Skipped(s[1..]) else s
  }

  /** The word at the start: up to a blank or `stop`. */
  function Word(s: string, stop: char): (w: string)
    ensures w <= s && IsWord(w, stop)
    ensures |w| < |s| ==> Blank(s[|w|]) || s[|w|] == stop
  {
    if s != "" && !Blank(s[0]) && s[0] != stop then [s[0]] + Word(s[1..], stop) else ""
  }

  predicate IsWord(w: string, stop: char) {
    forall c | c in w :: !Blank(c) && c != stop
  }

  /** Without the blanks at its end. */
  function Trimmed(s: string): (t: string)
    ensures t <= s && Blanks(s[|t|..]) && (t != "" ==> !Blank(t[|t| - 1]))
  {
    if s != "" && Blank(s[|s| - 1]) then
      var t := Trimmed(s[..|s| - 1]);
      assert s[|t|..] == s[..|s| - 1][|t|..] + [s[|s| - 1]];
      t
    else s
  }

  lemma {:induction false} SkipsOver(w: string, r: string)
    requires Blanks(w) && (r != "" ==> !Blank(r[0]))
    ensures Skipped(w + r) == r
  {
    if w == "" {
      assert w + r == r;
    } else {
      assert (w + r)[1..] == w[1..] + r;
      assert w[0] in w;
      SkipsOver(w[1..], r);
    }
  }

  lemma {:induction false} SkippedSplits(s: string)
    ensures exists w: string :: Blanks(w) && s == w + Skipped(s)
  {
    if s != "" && Blank(s[0]) {
      SkippedSplits(s[1..]);
      var w: string :| Blanks(w) && s[1..] == w + Skipped(s[1..]);
      assert s == [s[0]] + s[1..] && [s[0]] + (w + Skipped(s)) == ([s[0]] + w) + Skipped(s);
      assert Blanks([s[0]] + w);
    } else {
      assert s == "" + Skipped(s) && Blanks("");
    }
  }

  lemma {:induction false} WordAt(w: string, r: string, stop: char)
    requires IsWord(w, stop) && (r != "" ==> Blank(r[0]) || r[0] == stop)
    ensures Word(w + r, stop) == w
  {
    if w == "" {
      assert w + r == r;
    } else {
      assert (w + r)[1..] == w[1..] + r;
      assert w[0] in w;
      WordAt(w[1..], r, stop);
      assert w == [w[0]] + w[1..];
    }
  }

  lemma {:induction false} TrimTo(t: string, w: string)
    requires Blanks(w) && (t != "" ==> !Blank(t[|t| - 1]))
    ensures Trimmed(t + w) == t
    decreases |w|
  {
    if w == "" {
      assert t + w == t;
    } else {
      assert (t + w)[..|t + w| - 1] == t + w[..|w| - 1];
      assert w[|w| - 1] in w;
      TrimTo(t, w[..|w| - 1]);
    }
  }

  datatype Line = Empty | Comment | Bad | Setting(name: string, value: string)

  function Parse(s: string): Line {
    var r := Skipped(s);
    if r == "" then Empty
    else if r[0] == '#' then Comment
    else if r[0] == '=' then Bad
    else
      var name := Word(r, '=');
      var t := Skipped(r[|name|..]);
      if t == "" || t[0] != '=' then Bad
      else
        var u := Skipped(t[1..]);
        if u == "" then Bad else Setting(name, Trimmed(u))
  }

  predicate IsName(n: string) {
    n != "" && n[0] != '#' && IsWord(n, '=')
  }

  predicate IsValue(v: string) {
    v != "" && !Blank(v[0]) && !Blank(v[|v| - 1])
  }

  function Spaced(w0: string, name: string, w1: string, w2: string, value: string, w3: string): string {
    w0 + (name + (w1 + ("=" + (w2 + (value + w3)))))
  }

  /** Whatever blanks and tabs surround name, `=` and value, the line says the
      same. */
  lemma BlanksDoNotMatter(w0: string, name: string, w1: string, w2: string, value: string, w3: string)
    requires Blanks(w0) && Blanks(w1) && Blanks(w2) && Blanks(w3) && IsName(name) && IsValue(value)
    ensures Parse(Spaced(w0, name, w1, w2, value, w3)) == Setting(name, value)
  {
    hide Skipped, Word, Trimmed;
    var u := value + w3;
    var t := "=" + (w2 + u);
    var r := name + (w1 + t);
    assert name[0] in name && r[0] == name[0];
    SkipsOver(w0, r);
    assert w1 != "" ==> w1[0] in w1;
    WordAt(name, w1 + t, '=');
    assert r[|name|..] == w1 + t;
    SkipsOver(w1, t);
    assert t[1..] == w2 + u;
    SkipsOver(w2, u);
    TrimTo(value, w3);
  }

  ghost predicate IsSpaced(s: string, name: string, value: string) {
    exists w0: string, w1: string, w2: string, w3: string ::
      && s == Spaced(w0, name, w1, w2, value, w3)
      && Blanks(w0) && Blanks(w1) && Blanks(w2) && Blanks(w3)
  }

  /** And no other line is a setting. */
  lemma SettingIsSpaced(s: string)
    requires Parse(s).Setting?
    ensures var l := Parse(s);
            IsName(l.name) && IsValue(l.value) && IsSpaced(s, l.name, l.value)
  {
    hide Skipped, Trimmed;
    var r := Skipped(s);
    var name := Word(r, '=');
    var t := Skipped(r[|name|..]);
    var u := Skipped(t[1..]);
    var value := Trimmed(u);
    var w3 := u[|value|..];
    assert u == value + w3;
    assert w3 != "" ==> w3[0] in w3;
    SkippedSplits(s);
    var w0: string :| Blanks(w0) && s == w0 + r;
    SkippedSplits(r[|name|..]);
    var w1: string :| Blanks(w1) && r[|name|..] == w1 + t;
    SkippedSplits(t[1..]);
    var w2: string :| Blanks(w2) && t[1..] == w2 + u;
    assert t == "=" + t[1..];
    assert r == name + r[|name|..];
    assert s == Spaced(w0, name, w1, w2, value, w3);
  }

  predicate Begins(s: string, w: string) {
    Blanks(w) && w + "#" <= s
  }

  /** What kind a line is of: blank, a comment, a setting, and everything else
      is an error. */
  lemma LineKinds(s: string)
    ensures Parse(s) == Empty <==> Blanks(s)
    ensures Parse(s) == Comment <==> exists w :: Begins(s, w)
    ensures Parse(s).Setting? <==> exists name, value :: IsName(name) && IsValue(value) && IsSpaced(s, name, value)
  {
    hide Word, Trimmed, IsValue, IsName;
    SkippedSplits(s);
    var w: string :| Blanks(w) && s == w + Skipped(s);
    assert Parse(s) == Empty ==> s == w + "" == w;
    if Blanks(s) {
      SkipsOver(s, "");
      assert s + "" == s;
    }
    if Parse(s) == Comment {
      assert Begins(s, w) by { assert s == w + Skipped(s) && Skipped(s)[0] == '#'; }
    }
    if v: string :| Begins(s, v) {
      assert s == v + s[|v|..];
      SkipsOver(v, s[|v|..]);
    }
    if Parse(s).Setting? {
      SettingIsSpaced(s);
    }
    if name: string, value: string :| IsName(name) && IsValue(value) && IsSpaced(s, name, value) {
      var w0: string, w1: string, w2: string, w3: string :|
        s == Spaced(w0, name, w1, w2, value, w3) && Blanks(w0) && Blanks(w1) && Blanks(w2) && Blanks(w3);
      BlanksDoNotMatter(w0, name, w1, w2, value, w3);
    }
  }

  const LINE_BLANK := 2
  const LINE_COMMENT := 1
  const LINE_OK := 0
  const LINE_ERROR := -1

  function Code(l: Line): int {
    match l
    case Empty => LINE_BLANK
    case Comment => LINE_COMMENT
    case Setting(_, _) => LINE_OK
    case Bad => LINE_ERROR
  }

  lemma {:induction false} SameSuffix(b: seq<char>, c: seq<char>, i: nat)
    requires |b| == |c| && i <= |b| && b[i..] == c[i..]
    ensures CString(b, i) == CString(c, i)
    decreases |b| - i
  {
    if i < |b| {
      assert b[i] == b[i..][0] == c[i..][0] == c[i];
      assert b[i + 1..] == b[i..][1..] == c[i..][1..] == c[i + 1..];
      SameSuffix(b, c, i + 1);
    }
  }

  /** A NUL written at `e` ends the strings in front of it, and leaves those
      behind it alone. */
  lemma CutAt(b: seq<char>, i: nat, e: nat)
    requires Ended(b, i) && i <= e <= i + |CString(b, i)|
    ensures CString(b[e := NUL], i) == CString(b, i)[..e - i] && Ended(b[e := NUL], i)
  {
    hide CString;
    var c := b[e := NUL];
    CStringFrom(b, i, e);
    assert c[i..e] == b[i..e];
    CStringIs(c, i, b[i..e]);
  }

  lemma Behind(b: seq<char>, e: nat, j: nat)
    requires e < j <= |b|
    ensures CString(b[e := NUL], j) == CString(b, j)
  {
    SameSuffix(b, b[e := NUL], j);
  }

  method SkipWhite(b: array<char>, i: nat) returns (j: nat)
    requires Ended(b[..], i)
    ensures i <= j < b.Length && Ended(b[..], j)
    ensures CString(b[..], j) == Skipped(CString(b[..], i))
  {
    hide CString;
    j := i;
    ghost var c := b[..];
    CStringNext(c, j);
    while Blank(b[j])
      invariant i <= j < b.Length && Ended(c, j)
      invariant Skipped(CString(c, j)) == Skipped(CString(c, i))
      invariant b[j] == NUL <==> CString(c, j) == ""
      invariant b[j] != NUL ==> CString(c, j)[0] == b[j] && CString(c, j)[1..] == CString(c, j + 1) && Ended(c, j + 1)
      decreases b.Length - j
    {
      j := j + 1;
      CStringNext(c, j);
    }
  }

  lemma WordOn(t: string, stop: char)
    requires t != ""
    ensures if Blank(t[0]) || t[0] == stop then Word(t, stop) == "" else |Word(t, stop)| == 1 + |Word(t[1..], stop)|
  {
  }

  method FindEnd(b: array<char>, i: nat, stop: char) returns (j: nat)
    requires Ended(b[..], i)
    ensures i <= j < b.Length && Ended(b[..], j)
    ensures var s := CString(b[..], i);
            j == i + |Word(s, stop)| && CString(b[..], j) == s[|Word(s, stop)|..]
  {
    hide CString, Word;
    j := i;
    ghost var c := b[..];
    CStringNext(c, j);
    while b[j] != NUL && !Blank(b[j]) && b[j] != stop
      invariant i <= j < b.Length && Ended(c, j)
      invariant |Word(CString(c, i), stop)| == j - i + |Word(CString(c, j), stop)|
      invariant |CString(c, i)| == j - i + |CString(c, j)|
      invariant b[j] == NUL <==> CString(c, j) == ""
      invariant b[j] != NUL ==> CString(c, j)[0] == b[j] && CString(c, j)[1..] == CString(c, j + 1) && Ended(c, j + 1)
      decreases b.Length - j
    {
      WordOn(CString(c, j), stop);
      j := j + 1;
      CStringNext(c, j);
    }
    if b[j] != NUL {
      WordOn(CString(c, j), stop);
    }
    CStringFrom(c, i, j);
  }

  method Strlen(b: array<char>, i: nat) returns (n: nat)
    requires Ended(b[..], i)
    ensures n == |CString(b[..], i)|
  {
    hide CString;
    n := 0;
    ghost var c := b[..];
    CStringNext(c, i);
    while b[i + n] != NUL
      invariant i + n < b.Length && Ended(c, i + n)
      invariant n + |CString(c, i + n)| == |CString(c, i)|
      invariant b[i + n] == NUL <==> CString(c, i + n) == ""
      decreases b.Length - n
    {
      CStringNext(c, i + n);
      n := n + 1;
      CStringNext(c, i + n);
    }
  }

  lemma TrimOn(s: string, n: nat)
    requires n < |s| && Blank(s[n])
    ensures Trimmed(s[..n + 1]) == Trimmed(s[..n])
  {
    assert s[..n + 1][..n] == s[..n];
  }

  lemma TrimStops(s: string, n: nat)
    requires n < |s| && !Blank(s[n])
    ensures Trimmed(s[..n + 1]) == s[..n + 1]
  {
  }

  /** Cut the blanks off the end of a C string that does not start with one. */
  method TrimEnd(b: array<char>, at: nat)
    requires Ended(b[..], at)
    requires CString(b[..], at) != "" && !Blank(CString(b[..], at)[0])
    modifies b
    ensures Ended(b[..], at) && CString(b[..], at) == Trimmed(old(CString(b[..], at)))
    ensures b[..at] == old(b[..at])
  {
    hide CString, Trimmed;
    ghost var c := b[..];
    ghost var s := CString(c, at);
    var n := Strlen(b, at);
    var i: nat := n - 1;
    CStringFrom(c, at, at + n);
    assert s == c[at..at + n] && s[..i + 1] == s;
    while Blank(b[at + i])
      invariant 0 <= i < n && Trimmed(s) == Trimmed(s[..i + 1])
      invariant b[..] == c
      decreases i
    {
      assert b[at + i] == s[i] && b[at] == s[0];
      TrimOn(s, i);
      i := i - 1;
    }
    assert s[i] == b[at + i];
    TrimStops(s, i);
    CutAt(c, at, at + i + 1);
    b[at + i + 1] := NUL;
    assert b[..] == c[at + i + 1 := NUL];
  }

  /** The middle of parse_line: from the end of the name over the `=` to the
      value, with the name's terminator written on the way. */
  method FindValue(line: array<char>, e: nat) returns (ok: bool, v: nat)
    requires Ended(line[..], e) && CString(line[..], e) != ""
    requires Blank(CString(line[..], e)[0]) || CString(line[..], e)[0] == '='
    modifies line
    ensures line[..] == old(line[..])[e := NUL]
    ensures var t := Skipped(old(CString(line[..], e)));
            && (ok <==> t != "" && t[0] == '=' && Skipped(t[1..]) != "")
            && (ok ==> e < v && Ended(line[..], v) && CString(line[..], v) == Skipped(t[1..]))
  {
    hide CString;
    ghost var c := line[..];
    CStringNext(c, e);
    Behind(c, e, e + 1);
    var i := e;
    var sign := line[i] == '=';
    line[i] := NUL;
    ghost var d := line[..];
    assert d == c[e := NUL];
    i := i + 1;
    if !sign {
      i := SkipWhite(line, i);
      CStringNext(d, i);
      if line[i] != '=' {
        return false, 0;
      }
      i := i + 1;
    }
    i := SkipWhite(line, i);
    CStringNext(d, i);
    ok, v := line[i] != NUL, i;
  }

  /** `parse_line`: the same in place, on a C string. Name and value are offsets
      into the line, where they now end with a NUL. */
  method ParseLine(line: array<char>) returns (kind: int, name: nat, value: nat)
    requires Ended(line[..], 0)
    modifies line
    ensures var l := Parse(CString(old(line[..]), 0));
            && kind == Code(l)
            && (l.Setting? ==> Ended(line[..], name) && CString(line[..], name) == l.name
                               && Ended(line[..], value) && CString(line[..], value) == l.value)
  {
    hide CString, Skipped, Word, Trimmed;
    name, value := 0, 0;
    var i := SkipWhite(line, 0);
    ghost var c := line[..];
    ghost var r := CString(c, i);
    CStringNext(c, i);
    if line[i] == NUL {
      return LINE_BLANK, 0, 0;
    } else if line[i] == '#' {
      return LINE_COMMENT, 0, 0;
    } else if line[i] == '=' {
      return LINE_ERROR, 0, 0;
    }
    name := i;
    i := FindEnd(line, i, '=');
    CStringNext(c, i);
    if line[i] == NUL {
      return LINE_ERROR, 0, 0;
    }
    CutAt(c, name, i);
    ghost var n := Word(r, '=');
    var ok, v := FindValue(line, i);
    if !ok {
      return LINE_ERROR, 0, 0;
    }
    value := v;
    KeepName(line, name, n, value);
    kind := LINE_OK;
  }

  /** The end of parse_line: trimming the value leaves the name alone. */
  method KeepName(line: array<char>, name: nat, ghost n: string, value: nat)
    requires Ended(line[..], name) && CString(line[..], name) == n && name + |n| < value
    requires Ended(line[..], value) && CString(line[..], value) != "" && !Blank(CString(line[..], value)[0])
    modifies line
    ensures Ended(line[..], name) && CString(line[..], name) == n
    ensures Ended(line[..], value) && CString(line[..], value) == Trimmed(old(CString(line[..], value)))
  {
    hide CString, Trimmed;
    ghost var d := line[..];
    CStringFrom(d, name, name + |n|);
    CStringNext(d, name + |n|);
    TrimEnd(line, value);
    assert line[..][..value] == line[..value] == d[..value];
    assert d[..value][name..name + |n|] == d[name..name + |n|] == n[..|n|] == n;
    assert line[..][name..name + |n|] == d[..value][name..name + |n|];
    assert line[..][name + |n|] == d[..value][name + |n|];
    CStringIs(line[..], name, n);
  }
}
