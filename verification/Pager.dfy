/** The text pager (dialog/textbox.c): it sees a file through one buffer that it
    moves forwards and backwards, and must behave as if it held all the lines. */
module Pager {
  import opened Arith
  import opened Dialog
  import opened Lines
  import opened PagerView

  const BUF_SIZE := 10240

  class TextBox {
    const file: string
    const rows: nat             // height - 4, the lines a page shows
    const buf: array<char>
    var page: nat               // offset into buf
    var fpos: nat               // the file descriptor's offset
    var bytesRead: nat
    var beginReached: bool
    var endReached: bool
    var pageLength: nat
    var hscroll: nat
    var screen: seq<string>     // the text window, row by row
    ghost var line: nat         // lines before the current position

    /** The absolute position in the file that `page` stands for. */
    function Position(): int
      reads `page, `fpos, `bytesRead
    {
      fpos - bytesRead + page
    }

    /** The buffer shows the part of the file it was read from. */
    ghost predicate Window(): (b: bool)
      reads `page, `fpos, `bytesRead, buf
      ensures b ==> page <= bytesRead <= fpos <= |file| && bytesRead < buf.Length == BUF_SIZE + 1
      ensures b ==> NUL !in file && 0 < rows
    {
      && buf.Length == BUF_SIZE + 1 && NUL !in file && 0 < rows
      && bytesRead <= fpos <= |file|
      && bytesRead == Min(BUF_SIZE, |file| - (fpos - bytesRead))
      && buf[..bytesRead] == file[fpos - bytesRead..fpos] && buf[bytesRead] == NUL
      && page <= bytesRead
    }

    /** At the start of line `line`, or at the end of the file after the last. */
    ghost predicate AtLine()
      reads `page, `fpos, `bytesRead, `line
    {
      line <= Count(file) && Position() == StartOf(file, line)
    }

    /** ... and `endReached` says which of the two. */
    ghost predicate Ready()
      reads this
    {
      AtLine() && (endReached <==> line == Count(file))
    }

    /** `lseek` to `at` and `read` into the buffer. */
    method ReadAt(at: nat)
      requires buf.Length == BUF_SIZE + 1 && NUL !in file && 0 < rows && at <= |file|
      modifies `fpos, `bytesRead, `page, buf
      ensures Window() && fpos - bytesRead == at == Position() && page == 0
      ensures bytesRead == Min(BUF_SIZE, |file| - at)
    {
      bytesRead := Min(BUF_SIZE, |file| - at);
      forall k | 0 <= k < bytesRead {
        buf[k] := file[at + k];
      }
      buf[bytesRead] := NUL;
      fpos := at + bytesRead;
      page := 0;
    }

    constructor (file: string, height: nat)
      requires 5 <= height
      ensures this.file == file && rows == height - 4 && |screen| == rows
      ensures fresh(buf) && buf.Length == BUF_SIZE + 1
    {
      this.file, rows, buf := file, height - 4, new char[BUF_SIZE + 1];
      page, fpos, bytesRead := 0, 0, 0;
      beginReached, endReached, pageLength, hscroll, line := true, false, 0, 0, 0;
      screen := seq(height - 4, _ => "");
    }

    /** The first part of the file into the buffer. */
    method Open()
      requires buf.Length == BUF_SIZE + 1 && NUL !in file && 0 < rows
      modifies this, buf
      ensures screen == old(screen)
      ensures Window() && Ready() && line == 0 && beginReached && pageLength == 0 && hscroll == 0
    {
      hide AllLines, LinesFrom, Count, NextNL, Window;
      beginReached, endReached, pageLength, hscroll, line := true, false, 0, 0, 0;
      ReadAt(0);
    }

    /** What `*page` is: the character at the position, or the NUL behind the
        last byte read. */
    lemma Look()
      requires Window()
      ensures page < bytesRead ==> 0 <= Position() < |file| && buf[page] == file[Position()] != NUL
      ensures page == bytesRead ==> Position() == fpos && buf[page] == NUL
      ensures 0 <= Position() <= |file|
    {
      if page < bytesRead {
        assert buf[page] == buf[..bytesRead][page] == file[fpos - bytesRead..fpos][page];
        assert file[Position()] in file;
      }
    }

    /** The next part of the file into the buffer. */
    method ReadOn()
      requires Window() && page == bytesRead && fpos < |file|
      modifies `fpos, `bytesRead, `page, buf
      ensures Window() && Position() == old(Position()) && page < bytesRead
      ensures old(fpos) < fpos
    {
      ReadAt(fpos);
    }

    /** `page++` within the buffer. */
    method StepOn()
      requires Window() && page < bytesRead
      modifies `page
      ensures Window() && page == old(page) + 1 && Position() == old(Position()) + 1
    {
      page := page + 1;
    }

    /** The loop of `get_line`: collect what lies before the next newline, or
        the end of the file, reading on as the buffer runs out. */
    method ScanLine(ghost goal: nat) returns (text: string)
      requires Window() && Position() <= goal <= |file|
      requires forall p | Position() <= p < goal :: file[p] != NL
      requires goal < |file| ==> file[goal] == NL
      modifies `fpos, `bytesRead, `page, `endReached, buf
      ensures Window() && Position() == goal
      ensures endReached <==> goal == |file|
      ensures !endReached ==> page < bytesRead
      ensures text == Cut(file[old(Position())..goal])
    {
      hide Cut, Window, Position;
      text := "";
      endReached := false;
      ghost var start := Position();
      Look();
      while buf[page] != NL
        invariant Window() && start <= Position() <= goal && !endReached
        invariant text == Cut(file[start..Position()])
        invariant page < bytesRead ==> Position() < |file| && buf[page] == file[Position()] != NUL
        invariant page == bytesRead ==> Position() == fpos && buf[page] == NUL
        decreases goal - Position(), |file| - fpos
      {
        if buf[page] == NUL {
          if fpos < |file| {
            ReadOn();
          } else {
            endReached := true;
            break;
          }
        } else {
          CutGrows(file, start, Position());
          if |text| < MAX_LEN {
            text := text + [buf[page]];
          }
          StepOn();
        }
        Look();
      }
    }

    /** `get_line`: the next line, cut to MAX_LEN; behind the last line it
        returns nothing and stays. */
    method GetLine() returns (text: string)
      requires Window() && AtLine()
      modifies `fpos, `bytesRead, `page, `endReached, `line, buf
      ensures Window() && Ready()
      ensures line == if old(line) < Count(file) then old(line) + 1 else Count(file)
      ensures text == Text(file, old(line))
    {
      hide AllLines, LinesFrom, Count, NextNL, StartOf, EndOf, Cut, Window, Position;
      EndOfLine(file, line);
      text := ScanLine(EndOf(file, line));
      line := if line < Count(file) then line + 1 else line;
      if !endReached {
        StepOn();
      }
    }

    /** The refill of `back_lines`: at the start of the buffer, move it back by
        half its size, or to the start of the file, around the same position. */
    method Refill() returns (more: bool)
      requires Window() && page == 0
      modifies `fpos, `bytesRead, `page, buf
      ensures Window() && Position() == old(Position())
      ensures more <==> 0 < Position()
      ensures more ==> 0 < page
    {
      more := bytesRead < fpos;
      if more {
        var start := fpos - bytesRead;
        if start < BUF_SIZE / 2 {
          ReadAt(0);
          page := start;
        } else {
          ReadAt(start - BUF_SIZE / 2);
          page := BUF_SIZE / 2;
        }
      }
    }

    /** `--page` behind the first character of the buffer. */
    method StepBack()
      requires Window() && 0 < page
      modifies `page
      ensures Window() && page == old(page) - 1 && Position() == old(Position()) - 1
      ensures page < bytesRead && 0 <= Position() < |file| && buf[page] == file[Position()]
    {
      page := page - 1;
      Look();
    }

    /** The inner loop of `back_lines`: back to the newline in front of the line
        that starts at `start`, or to the beginning of the file. */
    method ScanBack(ghost start: nat) returns (found: bool)
      requires Window() && start <= Position()
      requires forall p | start <= p < Position() && p < |file| :: file[p] != NL
      requires 0 < start <= |file| ==> file[start - 1] == NL
      modifies `fpos, `bytesRead, `page, buf
      ensures Window() && (found <==> 0 < start)
      ensures Position() == if found then start - 1 else 0
      ensures found ==> page < bytesRead
    {
      hide Window, Position;
      found := false;
      Look();
      while !found
        invariant Window() && Position() <= |file|
        invariant found ==> page < bytesRead && 0 < start && Position() == start - 1
        invariant !found ==> start <= Position() <= old(Position())
        decreases !found, Position()
      {
        if page == 0 {
          var more := Refill();
          if !more {
            return;
          }
        }
        StepBack();
        found := buf[page] == NL;
      }
    }

    /** The `--page` in front of the loop of `back_lines`: from the start of a
        line to the newline before it, never to anything else. */
    method SkipNewline() returns (found: bool, internalError: bool)
      requires Window() && AtLine() && line < Count(file)
      modifies `fpos, `bytesRead, `page, buf
      ensures Window() && !internalError
      ensures found <==> 0 < line
      ensures Position() == if found then EndOf(file, line - 1) else 0
      ensures found ==> page < bytesRead
    {
      hide AllLines, LinesFrom, Count, NextNL, StartOf, EndOf, Window, Position;
      found, internalError := true, false;
      if 0 < line {
        StartAfterNewline(file, line);
      }
      if page == 0 {
        found := Refill();
      }
      if found {
        StepBack();
        internalError := buf[page] != NL;
      }
    }

    /** The loop of `back_lines`, from the end of line `at`. */
    method SkipLines(n: nat, ghost at: nat) returns (found: bool)
      requires Window() && at < Count(file) && Position() == EndOf(file, at)
      requires n == 0 ==> page < bytesRead
      modifies `fpos, `bytesRead, `page, buf
      ensures Window() && (found <==> n <= at)
      ensures Position() == if found then EndOf(file, at - n) else 0
      ensures found ==> page < bytesRead
    {
      hide AllLines, LinesFrom, Count, NextNL, StartOf, EndOf, Window, Position;
      found := true;
      for i := 0 to n
        invariant Window() && i <= at && Position() == EndOf(file, at - i) && found
        invariant 0 < i || n == 0 ==> page < bytesRead
      {
        EndOfLine(file, at - i);
        if 0 < at - i {
          StartAfterNewline(file, at - i);
        }
        found := ScanBack(StartOf(file, at - i));
        if !found {
          return;
        }
      }
    }

    /** `back_lines`: back to the start of the line `n` before, or to the
        beginning of the file. The exit with an internal error is not taken. */
    method BackLines(n: nat) returns (internalError: bool)
      requires Window() && Ready()
      requires endReached ==> 0 < n
      modifies `fpos, `bytesRead, `page, `beginReached, `line, buf
      ensures !internalError
      ensures Window() && AtLine() && line < Count(file)
      ensures line == if old(line) < n then 0 else old(line) - n
      ensures beginReached <==> line == 0
      ensures beginReached <==> Position() == 0
    {
      hide AllLines, LinesFrom, Count, NextNL, StartOf, EndOf, Window, Position;
      var found := true;
      internalError, beginReached := false, false;
      if endReached {
        EndOfLine(file, line - 1);
      } else {
        found, internalError := SkipNewline();
      }
      if found {
        found := SkipLines(n, line - 1);
      }
      if !found {
        beginReached, line := true, 0;
        return;
      }
      line := line - n;
      if 0 < line {
        StartAfterNewline(file, line);
      }
      StepOn();
    }

    /** `print_line`: the next line into a row of the text window. */
    method PrintLine(row: nat)
      requires Window() && AtLine() && row < |screen|
      modifies `fpos, `bytesRead, `page, `endReached, `line, `screen, buf
      ensures Window() && Ready()
      ensures line == if old(line) < Count(file) then old(line) + 1 else Count(file)
      ensures screen == old(screen)[row := Scrolled(Text(file, old(line)), hscroll)]
    {
      hide AllLines, LinesFrom, Count, NextNL, StartOf, EndOf, Window, Position;
      var text := GetLine();
      screen := screen[row := Scrolled(text, hscroll)];
    }

    /** `print_page`: fill the text window; the page is as long as there are
        lines for it. */
    method PrintPage()
      requires Window() && AtLine() && line < Count(file) && |screen| == rows
      modifies `fpos, `bytesRead, `page, `endReached, `line, `screen, `pageLength, buf
      ensures Window() && Ready()
      ensures line == Min(old(line) + rows, Count(file))
      ensures pageLength == Min(rows, Count(file) - old(line))
      ensures screen == Screen(file, rows, old(line), hscroll)
    {
      hide AllLines, LinesFrom, Count, NextNL, StartOf, EndOf, Window, Position, Text, Scrolled;
      var passedEnd := false;
      pageLength := 0;
      for i := 0 to rows
        invariant Window() && AtLine() && |screen| == rows
        invariant 0 < i ==> Ready()
        invariant line == Min(old(line) + i, Count(file))
        invariant pageLength == Min(i, Count(file) - old(line))
        invariant passedEnd <==> line == Count(file)
        invariant forall j | 0 <= j < i :: screen[j] == Scrolled(Text(file, old(line) + j), hscroll)
      {
        PrintLine(i);
        if !passedEnd {
          pageLength := pageLength + 1;
        }
        if endReached && !passedEnd {
          passedEnd := true;
        }
      }
    }

    /** `m` calls of `get_line`, then `back_lines (m)`: back where it was, unless
        more than one of the calls found the end of the file. */
    method ForthAndBack(m: nat)
      requires Window() && Ready() && !endReached
      modifies `fpos, `bytesRead, `page, `endReached, `beginReached, `line, buf
      ensures Window() && AtLine()
      ensures Position() == old(Position()) <==> (old(line) + m <= Count(file) || old(line) == 0)
      ensures old(line) + m <= Count(file) ==> line == old(line)
    {
      hide AllLines, LinesFrom, Count, NextNL, StartOf, EndOf, Window, Position, Text;
      for i := 0 to m
        invariant Window() && Ready() && line == Min(old(line) + i, Count(file))
      {
        var _ := GetLine();
      }
      var _ := BackLines(m);
      assert line <= old(line);
      StartsIncrease(file, line, old(line));
    }

    /** To the beginning of the file, which may still be in the buffer. */
    method Rewind()
      requires Window()
      modifies `fpos, `bytesRead, `page, `line, buf
      ensures Window() && AtLine() && line == 0
    {
      if bytesRead < fpos {
        ReadAt(0);
      } else {
        page := 0;
      }
      line := 0;
    }

    /** To the end of the file. The seek to a buffer's length before the end
        does not fail: it is not made in a file shorter than that. */
    method Forward() returns (seekError: bool)
      requires Window()
      modifies `fpos, `bytesRead, `page, `line, buf
      ensures Window() && AtLine() && line == Count(file) && !seekError
    {
      hide AllLines, LinesFrom, Count, NextNL, StartOf, EndOf;
      seekError := false;
      if fpos < |file| {
        seekError := |file| < BUF_SIZE;
        ReadAt(|file| - BUF_SIZE);
      }
      page := bytesRead;
      line := Count(file);
      EndOfLine(file, line);
    }

    /** Back to a remembered position. */
    method Restore(start: nat, offset: nat, begin: bool, end: bool, ghost at: nat)
      requires buf.Length == BUF_SIZE + 1 && NUL !in file && 0 < rows
      requires start <= |file| && offset <= Min(BUF_SIZE, |file| - start)
      requires at <= Count(file) && start + offset == StartOf(file, at) && (end <==> at == Count(file))
      modifies `fpos, `bytesRead, `page, `beginReached, `endReached, `line, buf
      ensures Window() && Ready()
      ensures line == at && beginReached == begin && endReached == end
    {
      hide AllLines, LinesFrom, Count, NextNL, StartOf;
      ReadAt(start);
      page, beginReached, endReached, line := offset, begin, end, at;
    }
  }
}
