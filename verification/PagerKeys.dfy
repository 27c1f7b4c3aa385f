/** The key loop of `dialog_textbox` (dialog/textbox.c), its effects on the
    file, the flags and the text window. */
module PagerKeys {
  import opened Arith
  import opened Dialog
  import opened Lines
  import opened PagerView
  import opened Pager

  /** Between two keys: the window shows the page of the view, and the position
      is behind that page. */
  ghost predicate Shows(t: TextBox, v: View)
    reads t, t.buf
  {
    && t.Window() && t.Ready()
    && v.top < Count(t.file) && v.hscroll <= MAX_LEN && t.hscroll == v.hscroll
    && t.pageLength == Min(t.rows, Count(t.file) - v.top)
    && t.line == v.top + t.pageLength
    && (t.beginReached <==> v.top == 0)
    && t.screen == Screen(t.file, t.rows, v.top, v.hscroll)
  }

  lemma EndShown(t: TextBox, v: View)
    requires Shows(t, v)
    ensures t.endReached <==> AtEnd(t.file, t.rows, v)
    ensures 0 < t.pageLength <= t.rows && (!t.endReached ==> t.pageLength == t.rows)
  {
  }

  /** `back_lines` and `print_page`. */
  method Reprint(t: TextBox, n: nat, ghost v: View) returns (internalError: bool)
    requires t.Window() && t.Ready() && |t.screen| == t.rows && 0 < n && t.hscroll <= MAX_LEN
    requires v.top == (if t.line < n then 0 else t.line - n) && v.hscroll == t.hscroll
    modifies t, t.buf
    ensures !internalError
    ensures Shows(t, v)
  {
    hide AllLines, LinesFrom, Count, NextNL, StartOf, EndOf, TextBox.Window, TextBox.Position, Text, Scrolled, Screen;
    internalError := t.BackLines(n);
    t.PrintPage();
  }

  method PressHome(t: TextBox, ghost v: View)
    requires Shows(t, v)
    modifies t, t.buf
    ensures Shows(t, Press(t.file, t.rows, v, Home))
  {
    hide AllLines, LinesFrom, Count, NextNL, StartOf, EndOf, Text, Scrolled, Screen;
    if !t.beginReached {
      t.beginReached := true;
      t.Rewind();
      t.PrintPage();
    }
  }

  method PressEnd(t: TextBox, ghost v: View) returns (internalError: bool)
    requires Shows(t, v)
    modifies t, t.buf
    ensures Shows(t, Press(t.file, t.rows, v, End)) && !internalError
  {
    hide AllLines, LinesFrom, Count, NextNL, StartOf, EndOf, TextBox.Window, TextBox.Position, Text, Scrolled, Screen;
    t.endReached := true;
    internalError := t.Forward();
    if !internalError {
      internalError := Reprint(t, t.rows, Press(t.file, t.rows, v, End));
    }
  }

  /** Print the first row of the text window, and read the lines behind it again
      for the position and the flags. */
  method PrintFirst(t: TextBox)
    requires t.Window() && t.AtLine() && t.line < Count(t.file) && 0 < t.rows == |t.screen|
    modifies t`fpos, t`bytesRead, t`page, t`endReached, t`line, t`screen, t`pageLength, t.buf
    ensures t.Window() && t.Ready()
    ensures t.line == Min(old(t.line) + t.rows, Count(t.file))
    ensures t.pageLength == Min(t.rows, Count(t.file) - old(t.line))
    ensures t.screen == old(t.screen)[0 := Scrolled(Text(t.file, old(t.line)), t.hscroll)]
  {
    hide AllLines, LinesFrom, Count, NextNL, StartOf, EndOf, TextBox.Window, TextBox.Position, Text, Scrolled;
    t.pageLength := 0;
    var passedEnd := false;
    for i := 0 to t.rows
      invariant t.Window() && t.AtLine() && (0 < i ==> t.Ready())
      invariant t.line == Min(old(t.line) + i, Count(t.file))
      invariant t.pageLength == Min(i, Count(t.file) - old(t.line))
      invariant passedEnd <==> t.line == Count(t.file)
      invariant i == 0 ==> t.screen == old(t.screen)
      invariant 0 < i ==> t.screen == old(t.screen)[0 := Scrolled(Text(t.file, old(t.line)), t.hscroll)]
    {
      if i == 0 {
        t.PrintLine(0);
      } else {
        var _ := t.GetLine();
      }
      if !passedEnd {
        t.pageLength := t.pageLength + 1;
      }
      if t.endReached && !passedEnd {
        passedEnd := true;
      }
    }
  }

  /** The previous line: the text window scrolls down by a row. */
  method PressUp(t: TextBox, ghost v: View) returns (internalError: bool)
    requires Shows(t, v)
    modifies t, t.buf
    ensures Shows(t, Press(t.file, t.rows, v, Up)) && !internalError
  {
    hide AllLines, LinesFrom, Count, NextNL, StartOf, EndOf, TextBox.Window, TextBox.Position, Text, Scrolled;
    internalError := false;
    if !t.beginReached {
      internalError := t.BackLines(t.pageLength + 1);
      t.screen := [""] + t.screen[..t.rows - 1];
      PrintFirst(t);
      assert t.screen == Screen(t.file, t.rows, v.top - 1, v.hscroll);
    }
  }

  /** The next line: the text window scrolls up by a row. */
  method PressDown(t: TextBox, ghost v: View)
    requires Shows(t, v)
    modifies t, t.buf
    ensures Shows(t, Press(t.file, t.rows, v, Down))
  {
    hide AllLines, LinesFrom, Count, NextNL, StartOf, EndOf, TextBox.Window, TextBox.Position, Text, Scrolled;
    if !t.endReached {
      t.beginReached := false;
      t.screen := t.screen[1..] + [""];
      t.PrintLine(t.rows - 1);
      assert t.screen == Screen(t.file, t.rows, v.top + 1, v.hscroll);
    }
  }

  method PressPreviousPage(t: TextBox, ghost v: View) returns (internalError: bool)
    requires Shows(t, v)
    modifies t, t.buf
    ensures Shows(t, Press(t.file, t.rows, v, PreviousPage)) && !internalError
  {
    hide AllLines, LinesFrom, Count, NextNL, StartOf, EndOf, TextBox.Window, TextBox.Position, Text, Scrolled, Screen;
    internalError := false;
    if !t.beginReached {
      internalError := Reprint(t, t.pageLength + t.rows, Press(t.file, t.rows, v, PreviousPage));
    }
  }

  method PressNextPage(t: TextBox, ghost v: View)
    requires Shows(t, v)
    modifies t, t.buf
    ensures Shows(t, Press(t.file, t.rows, v, NextPage))
  {
    hide AllLines, LinesFrom, Count, NextNL, StartOf, EndOf, TextBox.Window, TextBox.Position, Text, Scrolled, Screen;
    if !t.endReached {
      t.beginReached := false;
      t.PrintPage();
    }
  }

  /** The three keys that scroll sideways. */
  method PressSideways(t: TextBox, ghost v: View, key: Key) returns (internalError: bool)
    requires Shows(t, v) && (key.Left? || key.LineStart? || key.Right?)
    modifies t, t.buf
    ensures Shows(t, Press(t.file, t.rows, v, key)) && !internalError
  {
    hide AllLines, LinesFrom, Count, NextNL, StartOf, EndOf, TextBox.Window, TextBox.Position, Text, Scrolled, Screen;
    EndShown(t, v);
    internalError := false;
    if key.Right? {
      if MAX_LEN <= t.hscroll {
        return;
      }
      t.hscroll := t.hscroll + 1;
    } else {
      if t.hscroll <= 0 {
        return;
      }
      t.hscroll := if key.LineStart? then 0 else t.hscroll - 1;
    }
    internalError := Reprint(t, t.pageLength, Press(t.file, t.rows, v, key));
  }

  /** The loop of a forward search. */
  method ScanForward(t: TextBox, term: string) returns (found: bool)
    requires t.Window() && t.AtLine() && t.line < Count(t.file)
    modifies t`fpos, t`bytesRead, t`page, t`endReached, t`line, t.buf
    ensures t.Window() && t.Ready() && 0 < t.line
    ensures var r := FindNext(t.file, old(t.line), term);
            (found <==> r < Count(t.file)) && (found ==> t.line == r + 1)
  {
    hide AllLines, LinesFrom, Count, NextNL, StartOf, EndOf, TextBox.Window, TextBox.Position, Text, Contains;
    found := false;
    ghost var from := t.line;
    while true
      invariant t.Window() && t.AtLine() && from <= t.line < Count(t.file)
      invariant forall j | from <= j < t.line :: !Contains(Text(t.file, j), term)
      decreases Count(t.file) - t.line
    {
      var text := t.GetLine();
      found := Contains(text, term);
      if found || t.endReached {
        return;
      }
    }
  }

  /** The loop of a backward search. */
  method ScanBackward(t: TextBox, term: string) returns (found: bool, internalError: bool)
    requires t.Window() && t.AtLine() && t.line < Count(t.file)
    requires t.beginReached <==> t.line == 0
    modifies t`fpos, t`bytesRead, t`page, t`beginReached, t`endReached, t`line, t.buf
    ensures t.Window() && t.Ready() && 0 < t.line && !internalError
    ensures var r := FindPrevious(t.file, old(t.line), term);
            (found <==> 0 <= r) && (found ==> t.line == r + 1)
  {
    hide AllLines, LinesFrom, Count, NextNL, StartOf, EndOf, TextBox.Window, TextBox.Position, Text, Contains;
    found, internalError := false, false;
    ghost var from := t.line;
    while true
      invariant t.Window() && t.AtLine() && t.line <= from && t.line < Count(t.file) && !internalError
      invariant t.beginReached <==> t.line == 0
      invariant forall j: nat | t.line < j <= from :: !Contains(Text(t.file, j), term)
      decreases t.line
    {
      var text := t.GetLine();
      found := Contains(text, term);
      if found || t.beginReached {
        return;
      }
      internalError := t.BackLines(2);
    }
  }

  /** A search: the page that starts with the line found, or the page as it
      was. */
  method SearchFor(t: TextBox, ghost v: View, term: string, forward: bool) returns (internalError: bool)
    requires Shows(t, v) && Searchable(t.file, t.rows, v, forward) && term == v.term
    modifies t, t.buf
    ensures Shows(t, Search(t.file, v, forward)) && !internalError
  {
    hide AllLines, LinesFrom, Count, NextNL, StartOf, EndOf, Text, Scrolled, Screen, Contains;
    var offset, begin, end, start := t.page, t.beginReached, t.endReached, t.fpos - t.bytesRead;
    ghost var at := t.line;
    var found: bool;
    ghost var w := Search(t.file, v, forward);
    if forward {
      internalError := t.BackLines(t.pageLength - 1);
      found := ScanForward(t, term);
    } else {
      internalError := t.BackLines(t.pageLength + 1);
      found, internalError := ScanBackward(t, term);
    }
    if found {
      internalError := Reprint(t, 1, w);
    } else {
      t.Restore(start, offset, begin, end, at);
      internalError := Reprint(t, t.pageLength, w);
    }
  }

  /** The four search keys. `previous` is the last search term. */
  method PressFind(t: TextBox, ghost v: View, key: Key, previous: string) returns (term: string, internalError: bool)
    requires Shows(t, v) && previous == v.term && (key.Find? || key.FindAgain?)
    modifies t, t.buf
    ensures Shows(t, Press(t.file, t.rows, v, key)) && !internalError
    ensures term == Press(t.file, t.rows, v, key).term
  {
    hide Shows, Search;
    EndShown(t, v);
    BeginShown(t, v);
    term, internalError := previous, false;
    if if key.forward then !t.endReached else !t.beginReached {
      if key.FindAgain? {
        if term == "" {
          return;
        }
      } else {
        term := key.typed;
        if !key.entered {
          internalError := ReprintPage(t, v, term);
          return;
        }
      }
      ChangeTerm(t, v, term);
      internalError := SearchFor(t, v.(term := term), term, key.forward);
    }
  }

  lemma BeginShown(t: TextBox, v: View)
    requires Shows(t, v)
    ensures (t.beginReached <==> v.top == 0) && v.top < Count(t.file) && v.hscroll <= MAX_LEN
  {
  }

  lemma ChangeTerm(t: TextBox, v: View, term: string)
    requires Shows(t, v)
    ensures Shows(t, v.(term := term))
  {
  }

  method ReprintPage(t: TextBox, ghost v: View, ghost term: string) returns (internalError: bool)
    requires Shows(t, v)
    modifies t, t.buf
    ensures Shows(t, v.(term := term)) && !internalError
  {
    hide AllLines, LinesFrom, Count, NextNL, StartOf, EndOf, TextBox.Window, TextBox.Position, Text, Scrolled, Screen;
    internalError := Reprint(t, t.pageLength, v.(term := term));
  }

  method PressKey(t: TextBox, ghost v: View, key: Key, previous: string) returns (term: string, internalError: bool)
    requires Shows(t, v) && previous == v.term
    modifies t, t.buf
    ensures Shows(t, Press(t.file, t.rows, v, key)) && !internalError
    ensures term == Press(t.file, t.rows, v, key).term
  {
    hide Shows;
    BeginShown(t, v);
    term, internalError := previous, false;
    match key {
      case Home => PressHome(t, v);
      case End => internalError := PressEnd(t, v);
      case Up => internalError := PressUp(t, v);
      case Down => PressDown(t, v);
      case PreviousPage => internalError := PressPreviousPage(t, v);
      case NextPage => PressNextPage(t, v);
      case Left | LineStart | Right => internalError := PressSideways(t, v, key);
      case Find(_, _, _) => term, internalError := PressFind(t, v, key, previous);
      case FindAgain(_) => term, internalError := PressFind(t, v, key, previous);
      case Other =>
    }
  }

  method FirstPage(t: TextBox)
    requires t.buf.Length == BUF_SIZE + 1 && NUL !in t.file && 0 < t.rows == |t.screen|
    modifies t, t.buf
    ensures Shows(t, View(0, 0, ""))
  {
    hide AllLines, LinesFrom, Count, NextNL, StartOf, EndOf, TextBox.Window, TextBox.Position, Text, Scrolled, Screen;
    t.Open();
    t.PrintPage();
  }

  /** The key loop, from opening the file: whatever the keys, the pager shows
      what the plain view of the file's lines prescribes, and never leaves with
      an internal error or a failed seek. */
  method Browse(t: TextBox, keys: seq<Key>) returns (ghost v: View, internalError: bool)
    requires t.buf.Length == BUF_SIZE + 1 && NUL !in t.file && 0 < t.rows == |t.screen|
    modifies t, t.buf
    ensures !internalError
    ensures v == Session(t.file, t.rows, View(0, 0, ""), keys)
    ensures Shows(t, v)
  {
    hide Press, Shows, Search, Screen, Text, AllLines, LinesFrom, Count, NextNL, StartOf;
    hide TextBox.Window, TextBox.Position, TextBox.AtLine, TextBox.Ready;
    var term := "";
    internalError := false;
    v := View(0, 0, "");
    FirstPage(t);
    for i := 0 to |keys|
      invariant Shows(t, v) && !internalError && term == v.term
      invariant v.top < Count(t.file) && v.hscroll <= MAX_LEN
      invariant v == Session(t.file, t.rows, View(0, 0, ""), keys[..i])
    {
      assert keys[..i + 1][..i] == keys[..i];
      term, internalError := PressKey(t, v, keys[i], term);
      v := Press(t.file, t.rows, v, keys[i]);
    }
    assert keys[..|keys|] == keys;
  }
}
