/**
 Setting the common beginning and end of two files aside does not make a shortest script longer:
 what is shortest for the codes of the lines in between is shortest for the whole files.
 */
module FewestLines {
  import opened EditGraph
  import opened Text
  import opened Flags
  import opened Discard
  import opened Analyze
  import opened CodedLines

  /** Two lines, one of either file, have the same code if and only if they are the same. */
  ghost predicate CodedExactly(a: File, codes0: seq<int>, b: File, codes1: seq<int>) {
    && |a| == |codes0| && |b| == |codes1|
    && forall i, j :: 0 <= i < |a| && 0 <= j < |b| ==> (codes0[i] == codes1[j] <==> a[i] == b[j])
  }

  /** No flags that leave over the same lines of both files are fewer. */
  ghost predicate Fewest(edits: nat, a: File, b: File) {
    forall f0: seq<bool>, f1: seq<bool> :: |f0| == |a| && |f1| == |b| && SameLeft(a, f0, b, f1) ==> edits <= Flagged(f0, f1)
  }

  /** Fewer flags than the limit leave over the same lines of both files. */
  ghost predicate Near(a: File, b: File, limit: nat) {
    exists f0: seq<bool>, f1: seq<bool> :: |f0| == |a| && |f1| == |b| && SameLeft(a, f0, b, f1) && Flagged(f0, f1) < limit
  }

  /** No line occurs more than five times in the other file, and the files are not far apart. */
  ghost predicate EasilyCompared(a: File, b: File, heuristic: bool) {
    Rare(a, b) && Rare(b, a) && Near(a, b, if heuristic then 402 else 512)
  }

  /** The codes are those of the lines of both files between a common beginning and a common end. */
  ghost predicate CodedBetween(codes0: seq<int>, codes1: seq<int>, x: File, y: File) {
    exists pre: File, a: File, b: File, post: File :: x == pre + a + post && y == pre + b + post && CodedExactly(a, codes0, b, codes1)
  }

  lemma InBetween(codes0: seq<int>, codes1: seq<int>, pre: File, a: File, b: File, post: File)
    requires CodedExactly(a, codes0, b, codes1)
    ensures CodedBetween(codes0, codes1, pre + a + post, pre + b + post)
  {
  }

  // ----- Codes for whole files

  /** Some number that stands for a line and no other line. */
  ghost function CodeOf(all: File, line: Line): int {
    if line in all then var i :| 0 <= i < |all| && all[i] == line; i else -1
  }

  ghost function CodesOf(all: File, lines: File): (codes: seq<int>)
    ensures |codes| == |lines| && forall i :: 0 <= i < |lines| ==> codes[i] == CodeOf(all, lines[i])
  {
    seq(|lines|, i requires 0 <= i < |lines| => CodeOf(all, lines[i]))
  }

  lemma CodesTell(a: File, b: File)
    ensures CodedExactly(a, CodesOf(a + b, a), b, CodesOf(a + b, b))
  {
    forall i, j | 0 <= i < |a| && 0 <= j < |b|
      ensures CodeOf(a + b, a[i]) == CodeOf(a + b, b[j]) <==> a[i] == b[j]
    {
      assert (a + b)[i] == a[i] && (a + b)[|a| + j] == b[j];
    }
  }

  lemma {:induction false} KeptCodes(all: File, lines: File, f: seq<bool>, n: int)
    requires |f| == |lines| && 0 <= n <= |lines|
    ensures Kept(CodesOf(all, lines), f, 0, n) == CodesOf(all, Kept(lines, f, 0, n))
    decreases n
  {
    hide CodeOf;
    if n > 0 {
      KeptCodes(all, lines, f, n - 1);
    }
  }

  // ----- Leaving off what is common

  /** The same lines pair off, k lines further on. */
  ghost predicate Moved(b: Box, c: Box, k: int, x0: int, y0: int, x1: int, y1: int) {
    forall x, y :: x0 <= x < x1 && y0 <= y < y1 ==> (b.Same(x, y) <==> c.Same(x + k, y + k))
  }

  lemma {:induction false} MovedCost(b: Box, c: Box, k: int, x0: int, y0: int, x1: int, y1: int)
    requires x0 <= x1 && y0 <= y1 && Moved(b, c, k, x0, y0, x1, y1)
    ensures Cost(b, x0, y0, x1, y1) == Cost(c, x0 + k, y0 + k, x1 + k, y1 + k)
    decreases x1 - x0 + y1 - y0
  {
    hide Cost;
    if x0 < x1 || y0 < y1 {
      FirstMove(b, x0, y0, x1, y1);
      FirstMove(c, x0 + k, y0 + k, x1 + k, y1 + k);
      AnyFirstMove(b, x0, y0, x1, y1);
      AnyFirstMove(c, x0 + k, y0 + k, x1 + k, y1 + k);
      if x0 < x1 {
        MovedCost(b, c, k, x0 + 1, y0, x1, y1);
      }
      if y0 < y1 {
        MovedCost(b, c, k, x0, y0 + 1, x1, y1);
      }
      if x0 < x1 && y0 < y1 {
        MovedCost(b, c, k, x0 + 1, y0 + 1, x1, y1);
      }
    } else {
      AnyFirstMove(b, x0, y0, x1, y1);
      AnyFirstMove(c, x0 + k, y0 + k, x1 + k, y1 + k);
    }
  }

  /** The distance of the whole files is that of what lies between their common beginning and end. */
  lemma WholeDistance(pre: File, a: File, b: File, post: File, all0: seq<int>, all1: seq<int>, codes0: seq<int>, codes1: seq<int>)
    requires CodedExactly(pre + a + post, all0, pre + b + post, all1) && CodedExactly(a, codes0, b, codes1)
    ensures Distance(Whole(all0, all1)) == Distance(Whole(codes0, codes1))
  {
    hide Cost;
    var w := Whole(all0, all1);
    LeaveOffFirst(w, |pre|);
    var c := w.(xoff := |pre|, yoff := |pre|);
    LeaveOffLast(c, |post|);
    var d := c.(xlim := c.xlim - |post|, ylim := c.ylim - |post|);
    var m := Whole(codes0, codes1);
    assert Moved(m, d, |pre|, 0, 0, |a|, |b|);
    MovedCost(m, d, |pre|, 0, 0, |a|, |b|);
  }

  /** As few edits as the codes in between call for are as few as the whole files do. */
  lemma FewestOfAll(edits: nat, pre: File, a: File, b: File, post: File, codes0: seq<int>, codes1: seq<int>)
    requires CodedExactly(a, codes0, b, codes1) && edits == Distance(Whole(codes0, codes1))
    ensures Fewest(edits, pre + a + post, pre + b + post)
  {
    hide Cost, Kept, Count, CodeOf, CodedExactly;
    var x, y := pre + a + post, pre + b + post;
    var all0, all1 := CodesOf(x + y, x), CodesOf(x + y, y);
    CodesTell(x, y);
    WholeDistance(pre, a, b, post, all0, all1, codes0, codes1);
    forall f0: seq<bool>, f1: seq<bool> | |f0| == |x| && |f1| == |y| && SameLeft(x, f0, y, f1)
      ensures edits <= Flagged(f0, f1)
    {
      KeptCodes(x + y, x, f0, |x|);
      KeptCodes(x + y, y, f1, |y|);
      DistanceIsLeast(Whole(all0, all1), f0, f1, |x|, |y|);
    }
  }

  // ----- What is easily compared

  /** A line occurs in a file as often as its code among the codes. */
  lemma {:induction false} CodeOccurs(line: Line, code: int, b: File, codes1: seq<int>, n: int)
    requires |b| == |codes1| && 0 <= n <= |b|
    requires forall j :: 0 <= j < |b| ==> (codes1[j] == code <==> b[j] == line)
    ensures Occurrences(codes1, code, n) == Occurrences(b, line, n)
    decreases n
  {
    if n > 0 {
      CodeOccurs(line, code, b, codes1, n - 1);
    }
  }

  lemma {:induction false} OccursInside(line: Line, pre: File, b: File, post: File, n: int)
    requires 0 <= n <= |b|
    ensures Occurrences(b, line, n) <= Occurrences(pre + b + post, line, |pre| + n)
    decreases n
  {
    if n > 0 {
      assert (pre + b + post)[|pre| + n - 1] == b[n - 1];
      OccursInside(line, pre, b, post, n - 1);
    }
  }

  lemma {:induction false} OccursMore(line: Line, b: File, n: int, m: int)
    requires 0 <= n <= m <= |b|
    ensures Occurrences(b, line, n) <= Occurrences(b, line, m)
    decreases m
  {
    if n < m {
      OccursMore(line, b, n, m - 1);
    }
  }

  /** If no line of a whole file is frequent in the other, no code in between is. */
  lemma RareInside(pre: File, a: File, b: File, post: File, codes0: seq<int>, codes1: seq<int>)
    requires CodedExactly(a, codes0, b, codes1) && Rare(pre + a + post, pre + b + post)
    ensures Rare(codes0, codes1)
  {
    hide Occurrences;
    var x, y := pre + a + post, pre + b + post;
    forall p | 0 <= p < |codes0|
      ensures Occurrences(codes1, codes0[p], |codes1|) <= 5
    {
      assert x[|pre| + p] == a[p];
      CodeOccurs(a[p], codes0[p], b, codes1, |b|);
      OccursInside(a[p], pre, b, post, |b|);
      OccursMore(a[p], y, |pre| + |b|, |y|);
    }
  }

  lemma ExactlyBack(a: File, codes0: seq<int>, b: File, codes1: seq<int>)
    requires CodedExactly(a, codes0, b, codes1)
    ensures CodedExactly(b, codes1, a, codes0)
  {
  }

  /** Near files have near codes in between. */
  lemma NearInside(pre: File, a: File, b: File, post: File, codes0: seq<int>, codes1: seq<int>, limit: nat)
    requires CodedExactly(a, codes0, b, codes1) && Near(pre + a + post, pre + b + post, limit)
    ensures Distance(Whole(codes0, codes1)) < limit
  {
    hide Cost, Kept, Count, CodeOf, CodedExactly;
    var x, y := pre + a + post, pre + b + post;
    var f0: seq<bool>, f1: seq<bool> :| |f0| == |x| && |f1| == |y| && SameLeft(x, f0, y, f1) && Flagged(f0, f1) < limit;
    var all0, all1 := CodesOf(x + y, x), CodesOf(x + y, y);
    CodesTell(x, y);
    WholeDistance(pre, a, b, post, all0, all1, codes0, codes1);
    KeptCodes(x + y, x, f0, |x|);
    KeptCodes(x + y, y, f1, |y|);
    DistanceIsLeast(Whole(all0, all1), f0, f1, |x|, |y|);
  }

  /** What an exhaustive search among the lines in between means for the whole files. */
  lemma FewestSearched(edits: int, pre: File, a: File, b: File, post: File, codes0: seq<int>, codes1: seq<int>,
                       noDiscards: bool, heuristic: bool)
    requires CodedExactly(a, codes0, b, codes1)
    requires Exhaustive(codes0, codes1, noDiscards, heuristic) ==> edits == Distance(Whole(codes0, codes1))
    ensures CodedBetween(codes0, codes1, pre + a + post, pre + b + post)
    ensures Exhaustive(codes0, codes1, noDiscards, heuristic) ==> 0 <= edits && Fewest(edits, pre + a + post, pre + b + post)
    ensures noDiscards || EasilyCompared(pre + a + post, pre + b + post, heuristic) ==> Exhaustive(codes0, codes1, noDiscards, heuristic)
  {
    hide CodedExactly, CodedBetween, Fewest, EasilyCompared, Exhaustive, Cost;
    InBetween(codes0, codes1, pre, a, b, post);
    if Exhaustive(codes0, codes1, noDiscards, heuristic) {
      FewestOfAll(edits, pre, a, b, post, codes0, codes1);
    }
    EasyIsExhaustive(codes0, codes1, pre + a + post, pre + b + post, noDiscards, heuristic);
  }

  /** Files that are easily compared are searched exhaustively, whatever common ends are set aside. */
  lemma EasyIsExhaustive(codes0: seq<int>, codes1: seq<int>, x: File, y: File, noDiscards: bool, heuristic: bool)
    requires CodedBetween(codes0, codes1, x, y)
    ensures noDiscards || EasilyCompared(x, y, heuristic) ==> Exhaustive(codes0, codes1, noDiscards, heuristic)
  {
    hide CodedExactly, Rare, Near, Distance, Close, LeftIn, OnlyAbsent;
    if EasilyCompared(x, y, heuristic) && !noDiscards {
      var pre: File, a: File, b: File, post: File :| x == pre + a + post && y == pre + b + post && CodedExactly(a, codes0, b, codes1);
      ExactlyBack(a, codes0, b, codes1);
      RareInside(pre, a, b, post, codes0, codes1);
      RareInside(pre, b, a, post, codes1, codes0);
      NearInside(pre, a, b, post, codes0, codes1, if heuristic then 402 else 512);
      RareAndClose(codes0, codes1, heuristic);
    }
  }
}
