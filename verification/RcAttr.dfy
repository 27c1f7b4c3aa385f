/** Screen attributes as text (dialog/rc.c, attr_to_str and str_to_attr):
    "(foreground,background,highlight)". */
module RcAttr {
  import opened Dialog
  import opened RcLine

  /** The curses colours 0 to 7. */
  const COLORS: seq<string> := ["BLACK", "RED", "GREEN", "YELLOW", "BLUE", "MAGENTA", "CYAN", "WHITE"]

  datatype Attr = Attr(fg: nat, bg: nat, hl: bool)

  datatype Option<T> = None | Some(value: T)

  function Lower(c: char): char {
    if 'A' <= c <= 'Z' then c - 'A' + 'a' else c
  }

  /** `strcasecmp (s, t) == 0`. */
  predicate Same(s: string, t: string) {
    |s| == |t| && forall i | 0 <= i < |s| :: Lower(s[i]) == Lower(t[i])
  }

  function FindColor(s: string, j: nat): (k: nat)
    requires j <= |COLORS|
    ensures j <= k <= |COLORS| && (k < |COLORS| ==> Same(s, COLORS[k]))
    ensures forall i | j <= i < k :: !Same(s, COLORS[i])
    decreases |COLORS| - j
  {
    if j == |COLORS| || Same(s, COLORS[j]) then j else FindColor(s, j + 1)
  }

  /** No two colours have length and first letter in common. */
  lemma ColorsDiffer(s: string, k: nat)
    requires k < |COLORS| && Same(s, COLORS[k])
    ensures FindColor(s, 0) == k
    ensures IsWord(s, ',') && s != ""
  {
    var j := FindColor(s, 0);
    assert Lower(s[0]) == Lower(COLORS[k][0]);
    assert Lower(COLORS[j][0]) == Lower(COLORS[k][0]) && |COLORS[j]| == |COLORS[k]|;
    forall i | 0 <= i < |s|
      ensures !Blank(s[i]) && s[i] != ','
    {
      assert Lower(s[i]) == Lower(COLORS[k][i]);
      ColorLetters(k, i);
    }
  }

  lemma ColorLetters(k: nat, i: nat)
    requires k < |COLORS| && i < |COLORS[k]|
    ensures 'A' <= COLORS[k][i] <= 'Z'
  {
  }

  function Text(a: Attr): string
    requires a.fg < |COLORS| && a.bg < |COLORS|
  {
    "(" + COLORS[a.fg] + "," + COLORS[a.bg] + if a.hl then ",ON)" else ",OFF)"
  }

  method AttrToStr(fg: nat, bg: nat, hl: bool) returns (str: string)
    requires fg < |COLORS| && bg < |COLORS|
    ensures str == Text(Attr(fg, bg, hl))
  {
    str := "(";
    var i: nat := 0;
    while fg != i
      invariant i <= fg
    {
      i := i + 1;
    }
    str := str + COLORS[i];
    str := str + ",";
    i := 0;
    while bg != i
      invariant i <= bg
    {
      i := i + 1;
    }
    str := str + COLORS[i];
    str := str + if hl then ",ON)" else ",OFF)";
  }

  datatype Field = Field(color: nat, rest: string)

  /** A colour up to its comma, and what follows. */
  function Color(t: string): Option<Field> {
    var p := Skipped(t);
    if p == "" then None
    else
      var w := Word(p, ',');
      var c := Skipped(p[|w|..]);
      if c == "" || c[0] != ',' || FindColor(w, 0) == |COLORS| then None
      else Some(Field(FindColor(w, 0), c[1..]))
  }

  function Highlight(t: string): Option<bool> {
    var p := Skipped(t);
    if p == "" then None
    else if Same(Trimmed(p), "ON") then Some(true)
    else if Same(Trimmed(p), "OFF") then Some(false)
    else None
  }

  function Parse(s: string): Option<Attr> {
    if |s| < 2 || s[0] != '(' || s[|s| - 1] != ')' then None
    else
      var f := Color(s[1..|s| - 1]);
      if f == None then None
      else
        var g := Color(f.value.rest);
        if g == None then None
        else
          var h := Highlight(g.value.rest);
          if h == None then None else Some(Attr(f.value.color, g.value.color, h.value))
  }

  lemma ColorSpaced(w0: string, s: string, w1: string, rest: string, k: nat)
    requires Blanks(w0) && Blanks(w1) && k < |COLORS| && Same(s, COLORS[k])
    ensures Color(w0 + (s + (w1 + ("," + rest)))) == Some(Field(k, rest))
  {
    hide Skipped, Word, FindColor, Same;
    ColorsDiffer(s, k);
    var c := "," + rest;
    var p := s + (w1 + c);
    assert p[0] == s[0] && s[0] in s;
    SkipsOver(w0, p);
    assert w1 != "" ==> w1[0] in w1;
    WordAt(s, w1 + c, ',');
    assert p[|s|..] == w1 + c;
    SkipsOver(w1, c);
    assert c[1..] == rest;
  }

  lemma HighlightSpaced(w0: string, s: string, w1: string, hl: bool)
    requires Blanks(w0) && Blanks(w1) && Same(s, if hl then "ON" else "OFF")
    ensures Highlight(w0 + (s + w1)) == Some(hl)
  {
    hide Skipped, Trimmed;
    assert Lower(s[0]) == Lower("OO"[0]);
    assert Lower(s[|s| - 1]) == Lower((if hl then "ON" else "OFF")[|s| - 1]);
    SkipsOver(w0, s + w1);
    TrimTo(s, w1);
  }

  /** Whatever blanks and tabs surround the three parts, and in whatever case
      they are written, the attribute is the same. */
  lemma BlanksDoNotMatter(a: Attr, f: string, g: string, h: string,
                          w0: string, w1: string, w2: string, w3: string, w4: string, w5: string)
    requires a.fg < |COLORS| && Same(f, COLORS[a.fg]) && a.bg < |COLORS| && Same(g, COLORS[a.bg])
    requires Same(h, if a.hl then "ON" else "OFF")
    requires Blanks(w0) && Blanks(w1) && Blanks(w2) && Blanks(w3) && Blanks(w4) && Blanks(w5)
    ensures Parse("(" + (w0 + (f + (w1 + ("," + (w2 + (g + (w3 + ("," + (w4 + (h + w5)))))))))) + ")") == Some(a)
  {
    hide Color, Highlight, Same;
    var r3 := w4 + (h + w5);
    var r2 := w2 + (g + (w3 + ("," + r3)));
    var r1 := w0 + (f + (w1 + ("," + r2)));
    var s := "(" + r1 + ")";
    assert s[1..|s| - 1] == r1;
    ColorSpaced(w0, f, w1, r2, a.fg);
    ColorSpaced(w2, g, w3, r3, a.bg);
    HighlightSpaced(w4, h, w5, a.hl);
  }

  ghost predicate ColorText(t: string, k: nat, rest: string)
    requires k < |COLORS|
  {
    exists w0: string, s: string, w1: string ::
      t == w0 + (s + (w1 + ("," + rest))) && Blanks(w0) && Blanks(w1) && Same(s, COLORS[k])
  }

  ghost predicate HighlightText(t: string, hl: bool) {
    exists w0: string, s: string, w1: string ::
      t == w0 + (s + w1) && Blanks(w0) && Blanks(w1) && Same(s, if hl then "ON" else "OFF")
  }

  /** The three parts in parentheses, with commas between them and blanks
      anywhere around them. */
  ghost predicate AttrText(s: string, a: Attr) {
    && a.fg < |COLORS| && a.bg < |COLORS|
    && exists r1: string, r2: string, r3: string ::
         s == "(" + r1 + ")" && ColorText(r1, a.fg, r2) && ColorText(r2, a.bg, r3) && HighlightText(r3, a.hl)
  }

  lemma ColorIff(t: string, k: nat, rest: string)
    requires k < |COLORS|
    ensures Color(t) == Some(Field(k, rest)) <==> ColorText(t, k, rest)
  {
    hide Skipped, FindColor, Same;
    if Color(t) == Some(Field(k, rest)) {
      SkippedSplits(t);
      var p := Skipped(t);
      var w0: string :| Blanks(w0) && t == w0 + p;
      var w := Word(p, ',');
      SkippedSplits(p[|w|..]);
      var w1: string :| Blanks(w1) && p[|w|..] == w1 + Skipped(p[|w|..]);
      assert Skipped(p[|w|..]) == "," + rest;
      assert p == w + p[|w|..];
    }
    if ColorText(t, k, rest) {
      var w0: string, s: string, w1: string :|
        t == w0 + (s + (w1 + ("," + rest))) && Blanks(w0) && Blanks(w1) && Same(s, COLORS[k]);
      ColorSpaced(w0, s, w1, rest, k);
    }
  }

  lemma HighlightIff(t: string, hl: bool)
    ensures Highlight(t) == Some(hl) <==> HighlightText(t, hl)
  {
    hide Skipped, Trimmed, Same;
    if Highlight(t) == Some(hl) {
      SkippedSplits(t);
      var p := Skipped(t);
      var w0: string :| Blanks(w0) && t == w0 + p;
      assert p == Trimmed(p) + p[|Trimmed(p)|..];
    }
    if HighlightText(t, hl) {
      var w0: string, s: string, w1: string :|
        t == w0 + (s + w1) && Blanks(w0) && Blanks(w1) && Same(s, if hl then "ON" else "OFF");
      HighlightSpaced(w0, s, w1, hl);
    }
  }

  /** Texts of that form are accepted, with their values, and no others. */
  lemma ParseIff(s: string, a: Attr)
    ensures Parse(s) == Some(a) <==> AttrText(s, a)
  {
    hide Color, Highlight, ColorText, HighlightText;
    if Parse(s) == Some(a) {
      var r1 := s[1..|s| - 1];
      var f := Color(r1).value;
      var g := Color(f.rest).value;
      assert s == "(" + r1 + ")";
      ColorKnown(r1);
      ColorKnown(f.rest);
      ColorIff(r1, f.color, f.rest);
      ColorIff(f.rest, g.color, g.rest);
      HighlightIff(g.rest, a.hl);
    }
    if AttrText(s, a) {
      var r1: string, r2: string, r3: string :|
        s == "(" + r1 + ")" && ColorText(r1, a.fg, r2) && ColorText(r2, a.bg, r3) && HighlightText(r3, a.hl);
      assert s[1..|s| - 1] == r1;
      ColorIff(r1, a.fg, r2);
      ColorIff(r2, a.bg, r3);
      HighlightIff(r3, a.hl);
    }
  }

  lemma ColorKnown(t: string)
    ensures Color(t) != None ==> Color(t).value.color < |COLORS|
  {
  }

  lemma SameItself(s: string)
    ensures Same(s, s)
  {
  }

  /** What attr_to_str writes, str_to_attr reads. */
  lemma RoundTrip(a: Attr)
    requires a.fg < |COLORS| && a.bg < |COLORS|
    ensures Parse(Text(a)) == Some(a)
    ensures IsValue(Text(a)) && '\n' !in Text(a) && NUL !in Text(a)
  {
    hide Parse, Same;
    var f, g, h := COLORS[a.fg], COLORS[a.bg], if a.hl then "ON" else "OFF";
    SameItself(f);
    SameItself(g);
    SameItself(h);
    BlanksDoNotMatter(a, f, g, h, "", "", "", "", "", "");
    JoinText(a, f, g, h);
    TextIsPlain(a);
  }

  lemma NoBlanks(s: string)
    ensures "" + s == s && s + "" == s
  {
  }

  lemma JoinText(a: Attr, f: string, g: string, h: string)
    requires a.fg < |COLORS| && a.bg < |COLORS|
    requires f == COLORS[a.fg] && g == COLORS[a.bg] && h == if a.hl then "ON" else "OFF"
    ensures Text(a) == "(" + ("" + (f + ("" + ("," + ("" + (g + ("" + ("," + ("" + (h + "")))))))))) + ")"
  {
    NoBlanks(h);
    NoBlanks("," + h);
    NoBlanks(g + ("," + h));
    NoBlanks("," + (g + ("," + h)));
    NoBlanks(f + ("," + (g + ("," + h))));
    assert (if a.hl then ",ON)" else ",OFF)") == ("," + h) + ")";
    AssociateText(f, g, h);
  }

  lemma AssociateText(f: string, g: string, h: string)
    ensures "(" + f + "," + g + (("," + h) + ")") == "(" + (f + ("," + (g + ("," + h)))) + ")"
  {
    assert g + (("," + h) + ")") == (g + ("," + h)) + ")";
    assert f + ("," + (g + ("," + h))) == ((f + ",") + g) + ("," + h);
    assert "(" + f + "," + g == "(" + ((f + ",") + g);
  }

  lemma TextIsPlain(a: Attr)
    requires a.fg < |COLORS| && a.bg < |COLORS|
    ensures IsValue(Text(a)) && '\n' !in Text(a) && NUL !in Text(a)
  {
    var t := Text(a);
    forall i | 0 <= i < |COLORS[a.fg]| ensures COLORS[a.fg][i] != '\n' && COLORS[a.fg][i] != NUL {
      ColorLetters(a.fg, i);
    }
    forall i | 0 <= i < |COLORS[a.bg]| ensures COLORS[a.bg][i] != '\n' && COLORS[a.bg][i] != NUL {
      ColorLetters(a.bg, i);
    }
  }

  /** One turn of the loop that reads foreground and background. */
  method NextColor(temp: array<char>, start: nat) returns (ok: bool, color: nat, i: nat)
    requires Ended(temp[..], start)
    modifies temp
    ensures var f := Color(old(CString(temp[..], start)));
            && (ok <==> f != None)
            && (ok ==> color == f.value.color && Ended(temp[..], i) && CString(temp[..], i) == f.value.rest)
  {
    hide CString, Skipped, Word, FindColor;
    ok, color := false, 0;
    i := SkipWhite(temp, start);
    ghost var c := temp[..];
    CStringNext(c, i);
    if temp[i] == NUL {
      return;
    }
    var part := i;
    i := FindEnd(temp, i, ',');
    CStringNext(c, i);
    CutAt(c, part, i);
    if temp[i] == NUL {
      return;
    }
    ghost var w := Word(CString(c, part), ',');
    i, ok := EndColor(temp, i);
    if ok {
      KeptWord(c, temp[..], part, w, i);
      color := LookUp(CString(temp[..], part));
      ok := color < |COLORS|;
    }
  }

  /** The word in front of the terminators is as it was cut off. */
  lemma KeptWord(c: seq<char>, d: seq<char>, part: nat, w: string, i: nat)
    requires Ended(c, part) && part + |w| < i <= |d| == |c| && w <= CString(c, part)
    requires d[..part + |w|] == c[..part + |w|] && d[part + |w|] == NUL
    ensures CString(d, part) == w
  {
    CStringFrom(c, part, part + |w|);
    assert d[part..part + |w|] == d[..part + |w|][part..] == c[..part + |w|][part..] == c[part..part + |w|];
    CStringIs(d, part, w);
  }

  /** From the end of a colour over its comma, which become terminators. */
  method EndColor(temp: array<char>, e: nat) returns (i: nat, ok: bool)
    requires Ended(temp[..], e) && CString(temp[..], e) != ""
    requires Blank(CString(temp[..], e)[0]) || CString(temp[..], e)[0] == ','
    modifies temp
    ensures var c := Skipped(old(CString(temp[..], e)));
            && (ok <==> c != "" && c[0] == ',')
            && (ok ==> e < i && Ended(temp[..], i) && CString(temp[..], i) == c[1..])
            && (ok ==> temp[..e] == old(temp[..e]) && temp[..][e] == NUL)
  {
    hide CString;
    ghost var c := temp[..];
    CStringNext(c, e);
    i, ok := e, true;
    if Blank(temp[i]) {
      Behind(c, e, e + 1);
      temp[i] := NUL;
      assert temp[..] == c[e := NUL];
      i := SkipWhite(temp, i + 1);
      if temp[i] != ',' {
        CStringNext(temp[..], i);
        ok := false;
        return;
      }
    }
    ghost var d := temp[..];
    CStringNext(d, i);
    Behind(d, i, i + 1);
    temp[i] := NUL;
    assert temp[..] == d[i := NUL];
    i := i + 1;
  }

  method LookUp(s: string) returns (j: nat)
    ensures j == FindColor(s, 0)
  {
    j := 0;
    while j < |COLORS| && !Same(s, COLORS[j])
      invariant j <= |COLORS| && FindColor(s, 0) == FindColor(s, j)
    {
      j := j + 1;
    }
  }

  /** The string without its parentheses, in a buffer of its own. */
  method CopyInside(str: string) returns (temp: array<char>)
    requires 2 <= |str| <= MAX_LEN && NUL !in str
    ensures fresh(temp) && temp.Length == MAX_LEN + 1
    ensures Ended(temp[..], 0) && CString(temp[..], 0) == str[1..|str| - 1]
  {
    temp := new char[MAX_LEN + 1];
    var n := |str| - 1;
    forall k | 0 <= k < n {
      temp[k] := str[k + 1];
    }
    temp[n] := NUL;
    temp[n - 1] := NUL;
    assert temp[..][0..n - 1] == str[1..n];
    CStringIs(temp[..], 0, str[1..n]);
  }

  method ReadHighlight(temp: array<char>, start: nat) returns (ok: bool, hl: bool)
    requires Ended(temp[..], start)
    modifies temp
    ensures var h := Highlight(old(CString(temp[..], start)));
            (ok <==> h != None) && (ok ==> hl == h.value)
  {
    hide CString, Skipped, Trimmed;
    var part := SkipWhite(temp, start);
    CStringNext(temp[..], part);
    if temp[part] == NUL {
      return false, false;
    }
    TrimEnd(temp, part);
    if Same(CString(temp[..], part), "ON") {
      return true, true;
    } else if Same(CString(temp[..], part), "OFF") {
      return true, false;
    }
    return false, false;
  }

  method StrToAttr(str: string) returns (ok: bool, fg: nat, bg: nat, hl: bool)
    requires 0 < |str| <= MAX_LEN && NUL !in str
    ensures ok <==> Parse(str) != None
    ensures ok ==> Parse(str) == Some(Attr(fg, bg, hl))
  {
    hide Color, Highlight, CString;
    ok, fg, bg, hl := false, 0, 0, false;
    if str[0] != '(' || str[|str| - 1] != ')' {
      return;
    }
    var temp := CopyInside(str);
    var i: nat;
    ok, fg, i := NextColor(temp, 0);
    if ok {
      ok, bg, i := NextColor(temp, i);
      if ok {
        ok, hl := ReadHighlight(temp, i);
      }
    }
  }
}
