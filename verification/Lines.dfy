/** Plain line splitting of a whole file, the reference the pager must agree
    with: what lies between newlines, the last line without one. */
module Lines {
  const NL := '\n'

  /** The newline that ends the line containing `p`, or the end of the file. */
  function NextNL(f: string, p: nat): (q: nat)
    requires p <= |f|
    ensures p <= q <= |f| && (q < |f| ==> f[q] == NL)
    ensures forall k | p <= k < q :: f[k] != NL
    decreases |f| - p
  {
    if p == |f| || f[p] == NL then p else NextNL(f, p + 1)
  }

  /** The lines from offset `p` on. */
  function LinesFrom(f: string, p: nat): (ls: seq<string>)
    requires p <= |f|
    ensures ls != []
    decreases |f| - p
  {
    var q := NextNL(f, p);
    [f[p..q]] + if q == |f| then [] else LinesFrom(f, q + 1)
  }

  function AllLines(f: string): (ls: seq<string>)
    ensures ls != []
  {
    LinesFrom(f, 0)
  }

  function Count(f: string): (n: nat)
    ensures 0 < n
  {
    |AllLines(f)|
  }

  /** Where line `k` starts; the end of the file if there is no such line. */
  function StartOf(f: string, k: nat): (p: nat)
    ensures p <= |f| && (k == 0 ==> p == 0)
  {
    if k == 0 then 0
    else
      var q := NextNL(f, StartOf(f, k - 1));
      if q == |f| then |f| else q + 1
  }

  /** Where line `k` ends. */
  function EndOf(f: string, k: nat): (q: nat)
    ensures StartOf(f, k) <= q <= |f|
  {
    NextNL(f, StartOf(f, k))
  }

  lemma {:induction false} LinesAt(f: string, k: nat)
    requires k < Count(f)
    ensures AllLines(f)[k..] == LinesFrom(f, StartOf(f, k))
    ensures AllLines(f)[k] == f[StartOf(f, k)..EndOf(f, k)]
    ensures k + 1 < Count(f) <==> EndOf(f, k) < |f|
    ensures k + 1 < Count(f) ==> StartOf(f, k + 1) == EndOf(f, k) + 1
    ensures k + 1 == Count(f) ==> EndOf(f, k) == |f| == StartOf(f, k + 1)
    decreases k
  {
    if k != 0 {
      LinesAt(f, k - 1);
      var rest := LinesFrom(f, StartOf(f, k - 1));
      assert rest[1..] == LinesFrom(f, StartOf(f, k));
      assert AllLines(f)[k..] == AllLines(f)[k - 1..][1..];
    }
    var rest := LinesFrom(f, StartOf(f, k));
    assert rest[0] == AllLines(f)[k..][0];
    assert |rest| == Count(f) - k;
  }

  /** The end of line `k`, seen from inside it: the first newline, or the end
      of the file; behind the last line everything is at the end of the file. */
  lemma EndOfLine(f: string, k: nat)
    requires k <= Count(f)
    ensures forall p | StartOf(f, k) <= p < EndOf(f, k) :: f[p] != NL
    ensures EndOf(f, k) < |f| ==> f[EndOf(f, k)] == NL
    ensures k < Count(f) ==> AllLines(f)[k] == f[StartOf(f, k)..EndOf(f, k)]
    ensures k == Count(f) ==> StartOf(f, k) == EndOf(f, k) == |f|
    ensures EndOf(f, k) < |f| ==> k + 1 < Count(f) && StartOf(f, k + 1) == EndOf(f, k) + 1
    ensures EndOf(f, k) == |f| ==> k + 1 >= Count(f) && StartOf(f, Count(f)) == |f|
  {
    hide AllLines, LinesFrom, Count;
    if k < Count(f) {
      LinesAt(f, k);
    } else {
      LinesAt(f, k - 1);
    }
  }

  /** Before the start of every line but the first there is a newline, and it
      is the only one back to the start of the line it ends. */
  lemma StartAfterNewline(f: string, k: nat)
    requires 0 < k < Count(f)
    ensures 0 < StartOf(f, k) && f[StartOf(f, k) - 1] == NL && StartOf(f, k) - 1 == EndOf(f, k - 1)
  {
    hide AllLines, LinesFrom, Count, NextNL, StartOf;
    LinesAt(f, k - 1);
  }

  /** Lines start one behind the other. */
  lemma {:induction false} StartsIncrease(f: string, j: nat, k: nat)
    requires j <= k < Count(f)
    ensures StartOf(f, j) <= StartOf(f, k) && (j < k ==> StartOf(f, j) < StartOf(f, k))
    decreases k
  {
    hide AllLines, LinesFrom, Count, NextNL, StartOf;
    if j < k {
      StartsIncrease(f, j, k - 1);
      StartAfterNewline(f, k);
    }
  }

  function Joined(ls: seq<string>): string
    requires ls != []
  {
    if |ls| == 1 then ls[0] else ls[0] + [NL] + Joined(ls[1..])
  }

  lemma {:induction false} NextNLAt(a: string, l: string, rest: string)
    requires NL !in l && (rest == "" || rest[0] == NL)
    ensures NextNL(a + (l + rest), |a|) == |a| + |l|
    decreases l
  {
    if l == "" {
      assert a + (l + rest) == a + rest;
    } else {
      var f := a + (l + rest);
      assert f == (a + [l[0]]) + (l[1..] + rest) && f[|a|] == l[0] && l[0] in l;
      NextNLAt(a + [l[0]], l[1..], rest);
    }
  }

  lemma {:induction false} LinesOfJoined(a: string, ls: seq<string>)
    requires ls != [] && forall l | l in ls :: NL !in l
    ensures LinesFrom(a + Joined(ls), |a|) == ls
    decreases |ls|
  {
    hide LinesFrom, Joined, NextNL;
    assert ls[0] in ls;
    if |ls| == 1 {
      OneJoined(ls[0]);
      NextNLAt(a, ls[0], "");
      assert ls[0] + "" == ls[0];
      LastLine(a, ls[0]);
      assert ls == [ls[0]];
    } else {
      var more := Joined(ls[1..]);
      MoreJoined(ls);
      NextNLAt(a, ls[0], [NL] + more);
      var f := a + (ls[0] + ([NL] + more));
      FirstLine(f, a, ls[0], [NL] + more);
      assert f == (a + ls[0] + [NL]) + more;
      LinesOfJoined(a + ls[0] + [NL], ls[1..]);
    }
  }

  lemma OneJoined(l: string)
    ensures Joined([l]) == l
  {
  }

  lemma MoreJoined(ls: seq<string>)
    requires 1 < |ls|
    ensures Joined(ls) == ls[0] + ([NL] + Joined(ls[1..]))
  {
  }

  lemma LastLine(a: string, l: string)
    requires NextNL(a + l, |a|) == |a| + |l|
    ensures LinesFrom(a + l, |a|) == [l]
  {
    hide NextNL;
    assert (a + l)[|a|..|a| + |l|] == l;
  }

  lemma FirstLine(f: string, a: string, l: string, rest: string)
    requires f == a + (l + rest) && rest != "" && NextNL(f, |a|) == |a| + |l|
    ensures LinesFrom(f, |a|) == [l] + LinesFrom(f, |a| + |l| + 1)
  {
    hide NextNL, LinesFrom;
    Middle(f, a, l, rest);
    LinesUnfold(f, |a|);
  }

  lemma Middle(f: string, a: string, l: string, rest: string)
    requires f == a + (l + rest)
    ensures f[|a|..|a| + |l|] == l
  {
  }

  lemma LinesUnfold(f: string, p: nat)
    requires p <= |f|
    ensures var q := NextNL(f, p);
            LinesFrom(f, p) == if q == |f| then [f[p..q]] else [f[p..q]] + LinesFrom(f, q + 1)
  {
    hide NextNL;
  }

  lemma {:induction false} JoinedFrom(f: string, p: nat)
    requires p <= |f|
    ensures Joined(LinesFrom(f, p)) == f[p..] && forall l | l in LinesFrom(f, p) :: NL !in l
    decreases |f| - p
  {
    hide NextNL, LinesFrom, Joined;
    LinesUnfold(f, p);
    var q := NextNL(f, p);
    assert NL !in f[p..q];
    if q == |f| {
      OneJoined(f[p..q]);
    } else {
      JoinedFrom(f, q + 1);
      var ls := [f[p..q]] + LinesFrom(f, q + 1);
      assert ls[1..] == LinesFrom(f, q + 1);
      MoreJoined(ls);
      assert f[p..] == f[p..q] + ([NL] + f[q + 1..]);
    }
  }

  /** The lines of a file are the only ones without a newline in them that make
      up the file when they are joined by newlines. */
  lemma LinesIff(f: string, ls: seq<string>)
    requires ls != []
    ensures ls == AllLines(f) <==> Joined(ls) == f && forall l | l in ls :: NL !in l
  {
    hide NextNL, LinesFrom, Joined;
    JoinedFrom(f, 0);
    if Joined(ls) == f && forall l | l in ls :: NL !in l {
      LinesOfJoined("", ls);
      assert "" + f == f;
    }
  }
}
