/** What the pager shows, without its buffer: a window of `rows` lines on the
    lines of the file, and what each key makes of it. */
module PagerView {
  import opened Arith
  import opened Dialog
  import opened Lines

  function Cut(s: string): (t: string)
    ensures |s| <= MAX_LEN ==> t == s
    ensures |t| <= MAX_LEN
  {
    if |s| <= MAX_LEN then s else s[..MAX_LEN]
  }

  lemma CutGrows(f: string, start: nat, p: nat)
    requires start <= p < |f|
    ensures Cut(f[start..p + 1]) ==
            Cut(f[start..p]) + if |Cut(f[start..p])| < MAX_LEN then [f[p]] else []
  {
    assert f[start..p + 1] == f[start..p] + [f[p]];
    if MAX_LEN <= p - start {
      assert f[start..p + 1][..MAX_LEN] == f[start..p][..MAX_LEN];
    }
  }

  /** What `get_line` makes of line `k`, nothing behind the last one. */
  function Text(f: string, k: nat): (t: string)
    ensures Count(f) <= k ==> t == ""
  {
    if k < Count(f) then Cut(AllLines(f)[k]) else ""
  }

  /** A line scrolled horizontally. */
  function Scrolled(s: string, h: nat): string {
    s[Min(|s|, h)..]
  }

  /** The text window with line `top` in its first row. */
  function Screen(f: string, rows: nat, top: nat, h: nat): (s: seq<string>)
    ensures |s| == rows
    ensures forall i | 0 <= i < rows :: s[i] == Scrolled(Text(f, top + i), h)
  {
    seq(rows, i requires 0 <= i => Scrolled(Text(f, top + i), h))
  }

  predicate OccursAt(s: string, i: nat, term: string) {
    i + |term| <= |s| && s[i..i + |term|] == term
  }

  /** `strstr (s, term) != NULL`. */
  predicate Contains(s: string, term: string) {
    exists i | 0 <= i <= |s| :: OccursAt(s, i, term)
  }

  /** The first line from `k` on that contains the term, or the line count. */
  function FindNext(f: string, k: nat, term: string): (r: nat)
    requires k <= Count(f)
    ensures k <= r <= Count(f)
    ensures r < Count(f) ==> Contains(Text(f, r), term)
    ensures forall j | k <= j < r :: !Contains(Text(f, j), term)
    decreases Count(f) - k
  {
    if k == Count(f) || Contains(Text(f, k), term) then k else FindNext(f, k + 1, term)
  }

  /** The last line up to `k` that contains the term, or -1. */
  function FindPrevious(f: string, k: nat, term: string): (r: int)
    ensures -1 <= r <= k
    ensures 0 <= r ==> Contains(Text(f, r), term)
    ensures forall j: nat | r < j <= k :: !Contains(Text(f, j), term)
  {
    if Contains(Text(f, k), term) then k else if k == 0 then -1 else FindPrevious(f, k - 1, term)
  }

  datatype View = View(top: nat, hscroll: nat, term: string)

  datatype Key =
    | Home | End | Up | Down | PreviousPage | NextPage
    | Left | LineStart | Right
    | Find(forward: bool, typed: string, entered: bool)
    | FindAgain(forward: bool)
    | Other

  predicate AtEnd(f: string, rows: nat, v: View) {
    Count(f) <= v.top + rows
  }

  /** Whether a search in this direction has anywhere to go. */
  predicate Searchable(f: string, rows: nat, v: View, forward: bool) {
    if forward then !AtEnd(f, rows, v) else 0 < v.top
  }

  function Search(f: string, v: View, forward: bool): (w: View)
    requires v.top < Count(f)
    ensures w.top < Count(f) && w.hscroll == v.hscroll && w.term == v.term
  {
    if forward then
      var r := FindNext(f, v.top + 1, v.term);
      if r < Count(f) then v.(top := r) else v
    else if v.top == 0 then v
    else
      var r := FindPrevious(f, v.top - 1, v.term);
      if 0 <= r then v.(top := r) else v
  }

  /** One key. */
  function Press(f: string, rows: nat, v: View, key: Key): (w: View)
    requires 0 < rows && v.top < Count(f) && v.hscroll <= MAX_LEN
    ensures w.top < Count(f) && w.hscroll <= MAX_LEN
  {
    match key
    case Home => v.(top := 0)
    case End => v.(top := if rows < Count(f) then Count(f) - rows else 0)
    case Up => if v.top == 0 then v else v.(top := v.top - 1)
    case Down => if AtEnd(f, rows, v) then v else v.(top := v.top + 1)
    case PreviousPage => v.(top := if v.top < rows then 0 else v.top - rows)
    case NextPage => if AtEnd(f, rows, v) then v else v.(top := v.top + rows)
    case Left => if v.hscroll == 0 then v else v.(hscroll := v.hscroll - 1)
    case LineStart => v.(hscroll := 0)
    case Right => if v.hscroll == MAX_LEN then v else v.(hscroll := v.hscroll + 1)
    case Find(forward, typed, entered) =>
      if !Searchable(f, rows, v, forward) then v
      else if entered then Search(f, v.(term := typed), forward)
      else v.(term := typed)
    case FindAgain(forward) =>
      if !Searchable(f, rows, v, forward) || v.term == "" then v
      else Search(f, v, forward)
    case Other => v
  }

  /** Where a search for the term ends that starts at the page with `top`: at the
      nearest other line in its direction that contains the term, or where it
      started. */
  predicate SearchEnds(f: string, top: nat, forward: bool, term: string, end: nat) {
    if forward then
      || (top < end < Count(f) && Contains(Text(f, end), term)
          && forall j | top < j < end :: !Contains(Text(f, j), term))
      || (end == top && forall j | top < j < Count(f) :: !Contains(Text(f, j), term))
    else
      || (end < top && Contains(Text(f, end), term) && forall j | end < j < top :: !Contains(Text(f, j), term))
      || (end == top && forall j | 0 <= j < top :: !Contains(Text(f, j), term))
  }

  /** The search keys: nothing but the top line and the term typed changes; no
      search leaves the last page forwards or the first one backwards. */
  lemma SearchKeys(f: string, rows: nat, v: View, forward: bool, typed: string)
    requires 0 < rows && v.top < Count(f) && v.hscroll <= MAX_LEN
    ensures var w := Press(f, rows, v, Find(forward, typed, true));
            if Searchable(f, rows, v, forward) then
              w == View(w.top, v.hscroll, typed) && SearchEnds(f, v.top, forward, typed, w.top)
            else w == v
    ensures Press(f, rows, v, Find(forward, typed, false)) == if Searchable(f, rows, v, forward) then v.(term := typed) else v
    ensures var w := Press(f, rows, v, FindAgain(forward));
            if Searchable(f, rows, v, forward) && v.term != "" then
              w == View(w.top, v.hscroll, v.term) && SearchEnds(f, v.top, forward, v.term, w.top)
            else w == v
  {
    hide Contains, Text;
    if Searchable(f, rows, v, forward) {
      SearchFrom(f, v.(term := typed), forward);
      SearchFrom(f, v, forward);
    }
  }

  lemma SearchFrom(f: string, v: View, forward: bool)
    requires v.top < Count(f)
    ensures SearchEnds(f, v.top, forward, v.term, Search(f, v, forward).top)
  {
    hide Contains, Text;
  }

  /** What the window shows. */
  function Page(f: string, rows: nat, v: View): seq<string> {
    Screen(f, rows, v.top, v.hscroll)
  }

  /** The keys that move up and down. Home shows the first line at the top, End
      the last one at the bottom, or all lines if they fit. Down moves one line up
      into the window, the page keys show what is next to it. */
  lemma VerticalKeys(f: string, rows: nat, v: View)
    requires 0 < rows && v.top < Count(f) && v.hscroll <= MAX_LEN
    ensures var w := Press(f, rows, v, Home);
            w == View(0, v.hscroll, v.term) && Page(f, rows, w)[0] == Scrolled(Text(f, 0), v.hscroll)
    ensures var w := Press(f, rows, v, End);
            && w == View(w.top, v.hscroll, v.term)
            && if rows <= Count(f) then Page(f, rows, w)[rows - 1] == Scrolled(Text(f, Count(f) - 1), v.hscroll)
               else w.top == 0
    ensures AtEnd(f, rows, v) ==> Press(f, rows, v, Down) == Press(f, rows, v, NextPage) == v
    ensures !AtEnd(f, rows, v) ==>
              Page(f, rows, Press(f, rows, v, Down)) == Page(f, rows, v)[1..] + [Scrolled(Text(f, v.top + rows), v.hscroll)]
    ensures !AtEnd(f, rows, v) ==> Page(f, 2 * rows, v) == Page(f, rows, v) + Page(f, rows, Press(f, rows, v, NextPage))
    ensures var w := Press(f, rows, v, PreviousPage);
            if rows <= v.top then Page(f, 2 * rows, w) == Page(f, rows, w) + Page(f, rows, v)
            else w == Press(f, rows, v, Home)
  {
    hide Text, Scrolled, Screen;
    var t, h := v.top, v.hscroll;
    NextRow(f, rows, t, h);
    TwoPages(f, rows, t, h);
    if rows <= t {
      TwoPages(f, rows, t - rows, h);
    }
  }

  lemma NextRow(f: string, rows: nat, top: nat, h: nat)
    requires 0 < rows
    ensures Screen(f, rows, top + 1, h) == Screen(f, rows, top, h)[1..] + [Scrolled(Text(f, top + rows), h)]
  {
    hide Text, Scrolled;
    var s, t := Screen(f, rows, top, h), Screen(f, rows, top + 1, h);
    forall i | 0 <= i < rows - 1
      ensures t[i] == s[1..][i]
    {
      assert t[i] == Scrolled(Text(f, top + 1 + i), h) && s[i + 1] == Scrolled(Text(f, top + (i + 1)), h);
    }
  }

  lemma TwoPages(f: string, rows: nat, top: nat, h: nat)
    ensures Screen(f, 2 * rows, top, h) == Screen(f, rows, top, h) + Screen(f, rows, top + rows, h)
  {
    hide Text, Scrolled;
    var s, t := Screen(f, 2 * rows, top, h), Screen(f, rows, top + rows, h);
    forall i | 0 <= i < rows
      ensures s[rows + i] == t[i]
    {
      assert s[rows + i] == Scrolled(Text(f, top + (rows + i)), h) && t[i] == Scrolled(Text(f, top + rows + i), h);
    }
  }

  /** The keys that move sideways: every row gives away its first character, or
      gets it back, or shows its line from the start. */
  lemma SidewaysKeys(f: string, rows: nat, v: View)
    requires 0 < rows && v.top < Count(f) && v.hscroll <= MAX_LEN
    ensures var w := Press(f, rows, v, Right);
            && w == View(v.top, w.hscroll, v.term)
            && forall i | 0 <= i < rows ::
                 var s := Page(f, rows, v)[i];
                 Page(f, rows, w)[i] == if s == "" then "" else s[1..]
    ensures Press(f, rows, Press(f, rows, v, Right), Left) == v <==> v.hscroll < MAX_LEN
    ensures Press(f, rows, Press(f, rows, v, Left), Right) == v <==> 0 < v.hscroll
    ensures var w := Press(f, rows, v, LineStart);
            && w == View(v.top, w.hscroll, v.term)
            && forall i | 0 <= i < rows :: Page(f, rows, w)[i] == Text(f, v.top + i)
  {
    var w := Press(f, rows, v, Right);
    forall i | 0 <= i < rows
      ensures var s := Page(f, rows, v)[i];
              Page(f, rows, w)[i] == if s == "" then "" else s[1..]
    {
      TextShort(f, v.top + i);
    }
  }

  lemma TextShort(f: string, k: nat)
    ensures |Text(f, k)| <= MAX_LEN
  {
  }

  function Session(f: string, rows: nat, v: View, keys: seq<Key>): (w: View)
    requires 0 < rows && v.top < Count(f) && v.hscroll <= MAX_LEN
    ensures w.top < Count(f) && w.hscroll <= MAX_LEN
  {
    if keys == [] then v
    else
      var k := |keys| - 1;
      Press(f, rows, Session(f, rows, v, keys[..k]), keys[k])
  }

  /** Away from the ends, keys in opposite directions undo each other. */
  lemma OppositeKeys(f: string, rows: nat, v: View)
    requires 0 < rows && v.top < Count(f) && v.hscroll <= MAX_LEN
    ensures var w := Press(f, rows, v, Down);
            !AtEnd(f, rows, v) ==> w != v && Press(f, rows, w, Up) == v
    ensures var w := Press(f, rows, v, NextPage);
            !AtEnd(f, rows, v) ==> w != v && Press(f, rows, w, PreviousPage) == v
    ensures var w := Press(f, rows, v, Up);
            Press(f, rows, w, Down) == v <==> if v.top == 0 then AtEnd(f, rows, v) else v.top + rows <= Count(f)
  {
  }
}
