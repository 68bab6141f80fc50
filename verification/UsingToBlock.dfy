/**
 `using_to_diff3_block`: put blocks of two threads together into one three-way block.

 The blocks together cover a stretch of the common file without holes.  From them,
 and from the common lines between them, the lines of all three files are gathered.
 */
module UsingToBlock {
  import opened Wrappers
  import opened Text
  import opened Diff3Blocks

  /** Copy pointers; a spot already filled must be filled with an equal line. */
  method CopyStringlist(from: seq<Line>, to: array<Pointer>, off: nat) returns (ok: bool)
    requires off + |from| <= to.Length
    modifies to
    ensures ok <==> forall k :: off <= k < off + |from| ==> old(to[k]) == Null || old(to[k]) == To(from[k - off])
    ensures ok ==> forall k :: off <= k < off + |from| ==> to[k] == To(from[k - off])
    ensures forall k :: 0 <= k < to.Length && !(off <= k < off + |from|) ==> to[k] == old(to[k])
  {
    var n := 0;
    ok := true;
    while n < |from|
      invariant 0 <= n <= |from|
      invariant forall k :: off <= k < off + n ==> to[k] == To(from[k - off])
      invariant forall k :: off <= k < off + n ==> old(to[k]) == Null || old(to[k]) == To(from[k - off])
      invariant forall k :: 0 <= k < to.Length && !(off <= k < off + n) ==> to[k] == old(to[k])
    {
      if to[off + n] != Null {
        if from[n] != to[off + n].line {
          return false;
        }
      } else {
        to[off + n] := To(from[n]);
      }
      n := n + 1;
    }
  }

  /** Each entry filled so far holds its line of the slice that begins after line q. */
  ghost predicate Partly(a: seq<Pointer>, c: File, q: int) {
    && 0 <= q && q + |a| <= |c|
    && forall k :: 0 <= k < |a| ==> a[k] == Null || a[k] == To(c[q + k])
  }

  /** Line k, counted from 0, of the common file is in one of the blocks. */
  ghost predicate Within(u: seq<DiffBlock>, k: int) {
    exists i :: 0 <= i < |u| && u[i].lowC - 1 <= k < u[i].highC
  }

  /** The blocks describe slices of the stretch from line q to line q'. */
  ghost predicate Inside(u: seq<DiffBlock>, o: File, c: File, q: int, q': int) {
    forall i :: 0 <= i < |u| ==> Okay(u[i], o, c) && q < u[i].lowC && u[i].highC <= q'
  }

  lemma WithinNone(u: seq<DiffBlock>)
    ensures forall line :: !Within(u[..0], line)
  {
  }

  /** Copy the common file's lines out of the blocks of one thread. */
  method FillCommon(u: seq<DiffBlock>, to: array<Pointer>, ghost o: File, ghost c: File, lowc: nat) returns (ok: bool)
    requires 1 <= lowc && Partly(to[..], c, lowc - 1) && Inside(u, o, c, lowc - 1, lowc - 1 + to.Length)
    modifies to
    ensures ok && Partly(to[..], c, lowc - 1)
    ensures forall k :: 0 <= k < to.Length ==> (to[k] != Null <==> old(to[k]) != Null || Within(u, lowc - 1 + k))
  {
    hide Within, Inside;
    ok := true;
    var n := 0;
    WithinNone(u);
    while n < |u|
      invariant 0 <= n <= |u| && ok
      invariant Partly(to[..], c, lowc - 1)
      invariant forall k :: 0 <= k < to.Length ==> (to[k] != Null <==> old(to[k]) != Null || Within(u[..n], lowc - 1 + k))
    {
      var b := u[n];
      ghost var before := to[..];
      FitsStretch(u, n, o, c, lowc - 1, lowc - 1 + to.Length);
      ok := CopyStringlist(b.linesC, to, b.lowC - lowc);
      forall line: int
        ensures Within(u[..n + 1], line) <==> Within(u[..n], line) || b.lowC - 1 <= line < b.highC
      {
        WithinOneMore(u, n, line);
      }
      n := n + 1;
    }
    assert u[..n] == u;
  }

  lemma FitsStretch(u: seq<DiffBlock>, n: nat, o: File, c: File, q: int, q': int)
    requires n < |u| && Inside(u, o, c, q, q') && 0 <= q
    ensures var b := u[n];
            && 0 <= b.lowC - 1 - q && b.lowC - 1 - q + |b.linesC| <= q' - q && |b.linesC| == b.highC - b.lowC + 1
            && forall k :: 0 <= k < |b.linesC| ==> b.linesC[k] == c[b.lowC - 1 + k]
  {
  }

  lemma WithinOneMore(u: seq<DiffBlock>, n: nat, k: int)
    requires n < |u|
    ensures Within(u[..n + 1], k) <==> Within(u[..n], k) || u[n].lowC - 1 <= k < u[n].highC
  {
    if Within(u[..n], k) {
      var i :| 0 <= i < |u[..n]| && u[..n][i].lowC - 1 <= k < u[..n][i].highC;
      assert u[..n + 1][i] == u[..n][i];
    }
    if u[n].lowC - 1 <= k < u[n].highC {
      assert u[..n + 1][n] == u[n];
    }
    if Within(u[..n + 1], k) && !(u[n].lowC - 1 <= k < u[n].highC) {
      var i :| 0 <= i < |u[..n + 1]| && u[..n + 1][i].lowC - 1 <= k < u[..n + 1][i].highC;
      assert u[..n][i] == u[..n + 1][i];
    }
  }

  /** The first n entries are the lines after line p, and the rest are still null. */
  ghost predicate FilledTo(a: seq<Pointer>, o: File, p: int, n: int) {
    && 0 <= p && p + |a| <= |o| && 0 <= n <= |a|
    && (forall k :: 0 <= k < n ==> a[k] == To(o[p + k]))
    && forall k :: n <= k < |a| ==> a[k] == Null
  }

  /** Copy common lines, of which the first is entry i of one array and entry linec of the other. */
  method FillGap(to: array<Pointer>, from: array<Pointer>, i0: nat, end: nat, linec0: nat,
                 ghost o: File, ghost c: File, ghost p: int, ghost q: int)
    requires to != from && i0 <= end <= to.Length && linec0 + (end - i0) <= from.Length
    requires FilledTo(to[..], o, p, i0) && FilledTo(from[..], c, q, from.Length)
    requires Common(o, c, p + i0, q + linec0, p + end, q + linec0 + (end - i0))
    modifies to
    ensures FilledTo(to[..], o, p, end)
  {
    var i, linec := i0, linec0;
    while i < end
      invariant i0 <= i <= end && linec == linec0 + (i - i0)
      invariant FilledTo(to[..], o, p, i) && FilledTo(from[..], c, q, from.Length)
    {
      assert o[p + i] == o[p + i0..p + end][i - i0] && c[q + linec] == c[q + linec0..q + linec0 + (end - i0)][i - i0];
      to[i] := from[linec];
      i, linec := i + 1, linec + 1;
    }
  }

  /** From the n-th block on: the block, the common lines after it, and the blocks after those. */
  ghost predicate From(u: seq<DiffBlock>, n: nat, o: File, c: File, hi: int, highc: int)
    requires n < |u|
  {
    Okay(u[n], o, c) && Segment(u[n + 1..], o, c, u[n].highO, u[n].highC, hi, highc)
  }

  /** The first line after block n that its thread does not leave as it is: the next block, or the end. */
  function NextLow(u: seq<DiffBlock>, n: nat, hi: int): int {
    if n < |u| then u[n].lowO else hi + 1
  }

  lemma FromFirst(u: seq<DiffBlock>, o: File, c: File, lo: int, lowc: int, hi: int, highc: int)
    requires Segment(u, o, c, lo - 1, lowc - 1, hi, highc)
    ensures u != [] ==> From(u, 0, o, c, hi, highc)
    ensures var e := NextLow(u, 0, hi); lo <= e <= hi + 1 && Common(o, c, lo - 1, lowc - 1, e - 1, lowc - 1 + (e - lo))
    ensures NextLow(u, 0, hi) - lo <= highc - lowc + 1 && (u != [] ==> lowc <= u[0].lowC)
  {
    SegmentBounds(u, o, c, lo - 1, lowc - 1, hi, highc);
  }

  lemma FromNext(u: seq<DiffBlock>, n: nat, o: File, c: File, lo: int, lowc: int, hi: int, highc: int)
    requires n < |u| && From(u, n, o, c, hi, highc)
    ensures n + 1 < |u| ==> From(u, n + 1, o, c, hi, highc)
    ensures var e := NextLow(u, n + 1, hi);
            && u[n].highO + 1 <= e <= hi + 1
            && Common(o, c, u[n].highO, u[n].highC, e - 1, u[n].highC + (e - 1 - u[n].highO))
            && u[n].highC + (e - 1 - u[n].highO) <= highc
  {
    SegmentBounds(u[n + 1..], o, c, u[n].highO, u[n].highC, hi, highc);
    if n + 1 < |u| {
      assert u[n + 1..][0] == u[n + 1] && u[n + 1..][1..] == u[n + 2..];
    }
  }

  /** Gather the lines of the other file of one thread: its blocks, and common lines around them. */
  method FillOther(u: seq<DiffBlock>, to: array<Pointer>, from: array<Pointer>, lo: nat, hi: nat, lowc: nat,
                   ghost o: File, ghost c: File, ghost highc: int)
    requires to != from && 1 <= lo <= hi + 1 && to.Length == hi - lo + 1
    requires 1 <= lowc <= highc + 1 && from.Length == highc - lowc + 1
    requires FilledTo(to[..], o, lo - 1, 0) && FilledTo(from[..], c, lowc - 1, from.Length)
    requires Segment(u, o, c, lo - 1, lowc - 1, hi, highc)
    modifies to
    ensures FilledTo(to[..], o, lo - 1, to.Length)
  {
    hide Segment, From, FilledTo, Common;
    FromFirst(u, o, c, lo, lowc, hi, highc);
    FillGap(to, from, 0, NextLow(u, 0, hi) - lo, 0, o, c, lo - 1, lowc - 1);
    var n := 0;
    while n < |u|
      invariant 0 <= n <= |u| && lo <= NextLow(u, n, hi)
      invariant FilledTo(from[..], c, lowc - 1, from.Length)
      invariant FilledTo(to[..], o, lo - 1, NextLow(u, n, hi) - lo)
      invariant n < |u| ==> From(u, n, o, c, hi, highc) && lowc <= u[n].lowC
    {
      FillBlockAndGap(u, n, to, from, lo, hi, lowc, o, c, highc);
      n := n + 1;
    }
  }

  /** Copy block n and the common lines after it. */
  method FillBlockAndGap(u: seq<DiffBlock>, n: nat, to: array<Pointer>, from: array<Pointer>, lo: nat, hi: nat, lowc: nat,
                         ghost o: File, ghost c: File, ghost highc: int)
    requires to != from && 1 <= lo <= hi + 1 && to.Length == hi - lo + 1
    requires 1 <= lowc <= highc + 1 && from.Length == highc - lowc + 1
    requires n < |u| && From(u, n, o, c, hi, highc) && lowc <= u[n].lowC && lo <= u[n].lowO
    requires FilledTo(to[..], o, lo - 1, u[n].lowO - lo) && FilledTo(from[..], c, lowc - 1, from.Length)
    modifies to
    ensures FilledTo(to[..], o, lo - 1, NextLow(u, n + 1, hi) - lo) && FilledTo(from[..], c, lowc - 1, from.Length)
    ensures lo <= NextLow(u, n + 1, hi)
    ensures n + 1 < |u| ==> From(u, n + 1, o, c, hi, highc) && lowc <= u[n + 1].lowC
  {
    hide Segment, From, FilledTo, Common, Okay, Within;
    FromNext(u, n, o, c, lo, lowc, hi, highc);
    FromBlock(u, n, o, c, hi, highc);
    FillBlock(u[n], to, lo, o, c);
    FillGap(to, from, u[n].highO + 1 - lo, NextLow(u, n + 1, hi) - lo, u[n].highC + 1 - lowc, o, c, lo - 1, lowc - 1);
  }

  lemma FromBlock(u: seq<DiffBlock>, n: nat, o: File, c: File, hi: int, highc: int)
    requires n < |u| && From(u, n, o, c, hi, highc)
    ensures Okay(u[n], o, c) && u[n].highO <= hi && u[n].highC <= highc
    ensures n + 1 < |u| ==> u[n].highC < u[n + 1].lowC
  {
    SegmentBounds(u[n + 1..], o, c, u[n].highO, u[n].highC, hi, highc);
    if n + 1 < |u| {
      assert u[n + 1..][0] == u[n + 1];
    }
  }

  method FillBlock(b: DiffBlock, to: array<Pointer>, lo: nat, ghost o: File, ghost c: File)
    requires Okay(b, o, c) && 1 <= lo <= b.lowO && b.highO - lo + 1 <= to.Length
    requires FilledTo(to[..], o, lo - 1, b.lowO - lo)
    modifies to
    ensures FilledTo(to[..], o, lo - 1, b.highO + 1 - lo)
  {
    ghost var before := to[..];
    var ok := CopyStringlist(b.linesO, to, b.lowO - lo);
    assert forall k :: b.lowO - lo <= k < |before| ==> before[k] == Null;
    assert ok;
    assert forall k :: 0 <= k < |b.linesO| ==> b.linesO[k] == o[b.lowO - 1 + k];
  }

  /** Two lists of lines are equal, and have no null entry. */
  method CompareLineList(a: array<Pointer>, b: array<Pointer>) returns (equal: bool)
    requires a.Length == b.Length
    ensures equal <==> forall k :: 0 <= k < a.Length ==> a[k] != Null && a[k] == b[k]
  {
    var n := 0;
    while n < a.Length
      invariant 0 <= n <= a.Length
      invariant forall k :: 0 <= k < n ==> a[k] != Null && a[k] == b[k]
    {
      if a[n] == Null || b[n] == Null || a[n].line != b[n].line {
        return false;
      }
      n := n + 1;
    }
    return true;
  }

  // ----- The whole block

  /** Blocks of two threads, the first of which begins at lowc, that cover the common file up to highc. */
  ghost predicate Usable(using: seq<seq<DiffBlock>>, last: seq<int>, f: seq<File>, lowc: int, highc: int) {
    && |using| == 2 && |last| == 3 && |f| == 3
    && 0 <= last[FILEC] < lowc <= highc + 1
    && (forall d :: 0 <= d < 2 ==>
          && Segment(using[d], f[d], f[FILEC], last[d], last[FILEC], AfterLine(using[d], last[d], last[FILEC], highc), highc)
          && Inside(using[d], f[d], f[FILEC], lowc - 1, highc))
    && (using[0] != [] || using[1] != [])
    && forall line :: lowc - 1 <= line < highc ==> Within(using[0], line) || Within(using[1], line)
  }

  /** The line of file d that corresponds to line lowc, mapped off the first block used or the last one made. */
  function LowMap(u: seq<DiffBlock>, d: nat, last: seq<int>, lowc: int): int
    requires |last| == 3 && d < 3
  {
    if u != [] then lowc - u[0].lowC + u[0].lowO else lowc - last[FILEC] + last[d]
  }

  function HighMap(u: seq<DiffBlock>, d: nat, last: seq<int>, highc: int): int
    requires |last| == 3 && d < 3
  {
    if u != [] then highc - u[|u| - 1].highC + u[|u| - 1].highO else highc - last[FILEC] + last[d]
  }

  lemma UsedSegment(using: seq<seq<DiffBlock>>, last: seq<int>, f: seq<File>, lowc: int, highc: int, d: nat)
    requires Usable(using, last, f, lowc, highc) && d < 2
    ensures |last| == 3 && |f| == 3 && |using| == 2 && 0 <= last[FILEC] < lowc <= highc + 1
    ensures var u := using[d];
            && Segment(u, f[d], f[FILEC], last[d], last[FILEC], HighMap(u, d, last, highc), highc)
            && (u != [] ==> lowc <= u[0].lowC)
  {
    hide Segment, Within;
    assert using[d] != [] ==> Okay(using[d][0], f[d], f[FILEC]) && lowc <= using[d][0].lowC;
  }

  lemma FirstMapped(u: seq<DiffBlock>, o: File, c: File, p: int, q: int, p': int, q': int)
    requires Segment(u, o, c, p, q, p', q')
    ensures u != [] ==> u[0].lowO - u[0].lowC == p - q
  {
  }

  /** Both maps agree with where the thread's segment stands. */
  lemma Mapped(using: seq<seq<DiffBlock>>, last: seq<int>, f: seq<File>, lowc: int, highc: int, d: nat)
    requires Usable(using, last, f, lowc, highc) && d < 2
    ensures var lo, hi := LowMap(using[d], d, last, lowc), HighMap(using[d], d, last, highc);
            && Common(f[d], f[FILEC], last[d], last[FILEC], lo - 1, lowc - 1)
            && Segment(using[d], f[d], f[FILEC], lo - 1, lowc - 1, hi, highc)
            && 1 <= lo <= hi + 1 && hi <= |f[d]| && highc <= |f[FILEC]|
  {
    hide Usable, Within, Common, Segment;
    UsedSegment(using, last, f, lowc, highc, d);
    var u, hi := using[d], HighMap(using[d], d, last, highc);
    FirstMapped(u, f[d], f[FILEC], last[d], last[FILEC], hi, highc);
    CutBefore(u, f[d], f[FILEC], last[d], last[FILEC], hi, highc, lowc - 1);
    SegmentBounds(u, f[d], f[FILEC], lowc - 1 - last[FILEC] + last[d], lowc - 1, hi, highc);
  }

  lemma NoGapsLeft(using: seq<seq<DiffBlock>>, last: seq<int>, f: seq<File>, lowc: int, highc: int, a: seq<Pointer>)
    requires Usable(using, last, f, lowc, highc) && |a| == highc - lowc + 1
    requires Partly(a, f[FILEC], lowc - 1)
    requires forall k :: 0 <= k < |a| ==> (a[k] != Null <==> Within(using[0], lowc - 1 + k) || Within(using[1], lowc - 1 + k))
    ensures FilledTo(a, f[FILEC], lowc - 1, |a|)
  {
    forall k | 0 <= k < |a|
      ensures a[k] == To(f[FILEC][lowc - 1 + k])
    {
      assert Within(using[0], lowc - 1 + k) || Within(using[1], lowc - 1 + k);
    }
  }

  lemma FilledIsSlice(a: seq<Pointer>, o: File, lo: int, hi: int)
    requires 1 <= lo <= hi + 1 <= |o| + 1 && |a| == hi - lo + 1 && FilledTo(a, o, lo - 1, |a|)
    ensures a == Pointers(o[lo - 1..hi])
  {
  }

  /** Gather the common file's lines from the blocks of both threads. */
  method GatherCommon(using: seq<seq<DiffBlock>>, lowc: nat, highc: int, ghost last: seq<int>, ghost f: seq<File>)
    returns (ok: bool, to: array<Pointer>)
    requires Usable(using, last, f, lowc, highc) && highc <= |f[FILEC]|
    ensures fresh(to) && to.Length == highc - lowc + 1
    ensures ok && FilledTo(to[..], f[FILEC], lowc - 1, to.Length)
  {
    to := new Pointer[highc - lowc + 1](_ => Null);
    ok := FillCommon(using[0], to, f[0], f[FILEC], lowc);
    if ok {
      ok := FillCommon(using[1], to, f[1], f[FILEC], lowc);
    }
    NoGapsLeft(using, last, f, lowc, highc, to[..]);
  }

  /** Gather the lines of file d. */
  method GatherOther(using: seq<seq<DiffBlock>>, d: nat, from: array<Pointer>, lo: nat, hi: int, lowc: nat, highc: int,
                     ghost last: seq<int>, ghost f: seq<File>)
    returns (to: array<Pointer>)
    requires Usable(using, last, f, lowc, highc) && d < 2
    requires lo == LowMap(using[d], d, last, lowc) && hi == HighMap(using[d], d, last, highc)
    requires 1 <= lo <= hi + 1 <= |f[d]| + 1
    requires from.Length == highc - lowc + 1 && FilledTo(from[..], f[FILEC], lowc - 1, from.Length)
    ensures fresh(to) && to.Length == hi - lo + 1 && to[..] == Pointers(f[d][lo - 1..hi])
    ensures FilledTo(from[..], f[FILEC], lowc - 1, from.Length)
  {
    assert |using| == 2 && |f| == 3 && lowc <= highc + 1;
    hide Segment, Usable, Inside, Within;
    Mapped(using, last, f, lowc, highc, d);
    to := new Pointer[hi - lo + 1](_ => Null);
    FillOther(using[d], to, from, lo, hi, lowc, f[d], f[FILEC], highc);
    FilledIsSlice(to[..], f[d], lo, hi);
  }

  /** Which of the files is the odd one out, if any. */
  method ChooseKind(using: seq<seq<DiffBlock>>, lines0: array<Pointer>, lines1: array<Pointer>, ghost s0: seq<Line>, ghost s1: seq<Line>)
    returns (kind: Kind)
    requires |using| == 2 && lines0[..] == Pointers(s0) && lines1[..] == Pointers(s1)
    ensures kind == if using[0] == [] then DIFF_2ND else if using[1] == [] then DIFF_1ST else if s0 == s1 then DIFF_3RD else DIFF_ALL
  {
    kind := DIFF_ALL;
    if using[0] == [] {
      kind := DIFF_2ND;
    } else if using[1] == [] {
      kind := DIFF_1ST;
    } else if lines0.Length == lines1.Length {
      var equal := CompareLineList(lines0, lines1);
      if equal {
        kind := DIFF_3RD;
      }
      assert forall k :: 0 <= k < lines0.Length ==> lines0[k] == To(s0[k]) && lines1[k] == To(s1[k]);
    }
  }

  /** The ranges of the block made of the blocks used. */
  ghost predicate Ranges(using: seq<seq<DiffBlock>>, last: seq<int>, low: seq<int>, high: seq<int>, f: seq<File>)
    requires |using| == 2
  {
    && |low| == 3 && |high| == 3 && |last| == 3 && |f| == 3
    && Usable(using, last, f, low[FILEC], high[FILEC])
    && low[0] == LowMap(using[0], 0, last, low[FILEC]) && high[0] == HighMap(using[0], 0, last, high[FILEC])
    && low[1] == LowMap(using[1], 1, last, low[FILEC]) && high[1] == HighMap(using[1], 1, last, high[FILEC])
  }

  /** A file of whose thread no block is used is as the common file. */
  lemma UnusedIsCommon(using: seq<seq<DiffBlock>>, last: seq<int>, low: seq<int>, high: seq<int>, f: seq<File>, d: nat)
    requires |using| == 2 && Ranges(using, last, low, high, f) && d < 2 && using[d] == []
    ensures 1 <= low[d] <= high[d] + 1 <= |f[d]| + 1 && 1 <= low[FILEC] <= high[FILEC] + 1 <= |f[FILEC]| + 1
    ensures f[d][low[d] - 1..high[d]] == f[FILEC][low[FILEC] - 1..high[FILEC]]
  {
    Mapped(using, last, f, low[FILEC], high[FILEC], d);
  }

  lemma AgreeBefore(using: seq<seq<DiffBlock>>, last: seq<int>, b: Diff3Block, f: seq<File>)
    requires |using| == 2 && Ranges(using, last, b.low, b.high, f)
    ensures Agree(f, last, Before(b))
  {
    hide Segment, Usable, Inside, Within;
    Mapped(using, last, f, b.low[FILEC], b.high[FILEC], 0);
    Mapped(using, last, f, b.low[FILEC], b.high[FILEC], 1);
  }

  lemma ProperKind(using: seq<seq<DiffBlock>>, last: seq<int>, b: Diff3Block, f: seq<File>)
    requires |using| == 2 && Ranges(using, last, b.low, b.high, f) && InRange(b, f)
    requires b.kind == if using[0] == [] then DIFF_2ND else if using[1] == [] then DIFF_1ST
                       else if Slice(b, f, 0) == Slice(b, f, 1) then DIFF_3RD else DIFF_ALL
    ensures RightKind(b, f)
  {
    if using[0] == [] {
      UnusedIsCommon(using, last, b.low, b.high, f, 0);
    } else if using[1] == [] {
      UnusedIsCommon(using, last, b.low, b.high, f, 1);
    }
  }

  lemma ProperSize(using: seq<seq<DiffBlock>>, last: seq<int>, b: Diff3Block, f: seq<File>)
    requires |using| == 2 && Ranges(using, last, b.low, b.high, f)
    ensures 0 < b.Num(0) + b.Num(1) + b.Num(2)
  {
    NotEmpty(using, last, f, b.low[FILEC], b.high[FILEC]);
  }

  /** Ranges, line arrays and type make up a proper block. */
  lemma ProperBlock(using: seq<seq<DiffBlock>>, last: seq<int>, b: Diff3Block, f: seq<File>)
    requires |using| == 2 && Ranges(using, last, b.low, b.high, f) && InRange(b, f)
    requires b.lines[0] == Pointers(Slice(b, f, 0)) && b.lines[1] == Pointers(Slice(b, f, 1)) && b.lines[2] == Pointers(Slice(b, f, 2))
    requires b.kind == if using[0] == [] then DIFF_2ND else if using[1] == [] then DIFF_1ST
                       else if Slice(b, f, 0) == Slice(b, f, 1) then DIFF_3RD else DIFF_ALL
    ensures Okay3(b, f) && Agree(f, last, Before(b))
  {
    ProperKind(using, last, b, f);
    ProperSize(using, last, b, f);
    AgreeBefore(using, last, b, f);
    hide Ranges, Pointers, Slice, RightKind;
  }

  lemma RangesInBounds(using: seq<seq<DiffBlock>>, last: seq<int>, low: seq<int>, high: seq<int>, f: seq<File>)
    requires |using| == 2 && Ranges(using, last, low, high, f)
    ensures forall d :: 0 <= d < 3 ==> 1 <= low[d] <= high[d] + 1 <= |f[d]| + 1
  {
    hide Segment, Common, Usable, Within, Inside, Okay;
    UsedSegment(using, last, f, low[FILEC], high[FILEC], 0);
    Mapped(using, last, f, low[FILEC], high[FILEC], 0);
    Mapped(using, last, f, low[FILEC], high[FILEC], 1);
  }

  /** If all blocks used belong to one thread, there is only one, and it has the lines of the new block. */
  lemma LoneBlock(using: seq<seq<DiffBlock>>, last: seq<int>, b: Diff3Block, f: seq<File>, d: nat)
    requires |using| == 2 && Ranges(using, last, b.low, b.high, f) && InRange(b, f)
    requires d < 2 && using[1 - d] == [] && Apart(using[d])
    ensures |using[d]| == 1
    ensures Slice(b, f, d) == using[d][0].linesO && Slice(b, f, FILEC) == using[d][0].linesC
  {
    hide Usable, Inside, Within, Apart, Segment;
    var u, low, high := using[d], b.low[FILEC], b.high[FILEC];
    UsedAlone(using, last, f, low, high, d);
    OnlyOne(u, low, high);
    assert Okay(u[0], f[d], f[FILEC]);
  }

  lemma UsedAlone(using: seq<seq<DiffBlock>>, last: seq<int>, f: seq<File>, low: int, high: int, d: nat)
    requires Usable(using, last, f, low, high) && d < 2 && using[1 - d] == []
    ensures var u := using[d];
            && u != [] && low <= high + 1
            && (forall line :: low - 1 <= line < high ==> Within(u, line))
            && (forall i :: 0 <= i < |u| ==> Okay(u[i], f[d], f[FILEC]) && low <= u[i].lowC <= u[i].highC + 1 && u[i].highC <= high)
  {
    hide Segment;
    assert Inside(using[d], f[d], f[FILEC], low - 1, high);
    forall line | low - 1 <= line < high
      ensures Within(using[d], line)
    {
      assert !Within(using[1 - d], line);
    }
  }

  /** Blocks with common lines in between cannot cover anything without holes, unless there is just one. */
  lemma OnlyOne(u: seq<DiffBlock>, low: int, high: int)
    requires u != [] && Apart(u) && forall line :: low - 1 <= line < high ==> Within(u, line)
    requires forall i :: 0 <= i < |u| ==> low <= u[i].lowC <= u[i].highC + 1 && u[i].highC <= high
    requires low <= high + 1
    ensures |u| == 1 && u[0].lowC == low && u[0].highC == high
  {
    if |u| > 1 {
      NotWithin(u);
    } else if low <= high {
      assert Within(u, low - 1) && Within(u, high - 1);
    }
  }

  /** The line after the first of several blocks is in none of them. */
  lemma NotWithin(u: seq<DiffBlock>)
    requires |u| > 1 && Apart(u) && forall i :: 0 <= i < |u| ==> u[i].lowC <= u[i].highC + 1
    ensures u[0].highC + 1 < u[1].lowC && !Within(u, u[0].highC)
  {
    forall i | 0 < i < |u|
      ensures u[0].highC + 1 < u[i].lowC
    {
      LaterAfter(u, i);
    }
  }

  lemma {:induction false} LaterAfter(u: seq<DiffBlock>, i: nat)
    requires 0 < i < |u| && Apart(u) && forall i :: 0 <= i < |u| ==> u[i].lowC <= u[i].highC + 1
    ensures u[0].highC + 1 < u[i].lowC
  {
    if i > 1 {
      LaterAfter(u, i - 1);
    }
  }

  /** Of the files, the one that is told to differ does so exactly if its two-way block has not the same lines on both sides. */
  lemma LoneFileDiffers(using: seq<seq<DiffBlock>>, last: seq<int>, b: Diff3Block, f: seq<File>)
    requires |using| == 2 && Ranges(using, last, b.low, b.high, f) && InRange(b, f) && Apart(using[0]) && Apart(using[1])
    requires b.kind.DIFF_2ND? <==> using[0] == []
    requires b.kind.DIFF_1ST? <==> using[0] != [] && using[1] == []
    requires using[0] != [] || using[1] != []
    ensures b.kind.DIFF_1ST? ==> (Slice(b, f, 0) != Slice(b, f, FILEC) <==> using[0][0].linesO != using[0][0].linesC)
    ensures b.kind.DIFF_2ND? ==> (Slice(b, f, 1) != Slice(b, f, FILEC) <==> using[1][0].linesO != using[1][0].linesC)
  {
    hide Ranges, Apart, InRange;
    if b.kind.DIFF_1ST? {
      LoneBlock(using, last, b, f, 0);
    } else if b.kind.DIFF_2ND? {
      LoneBlock(using, last, b, f, 1);
    }
  }

  /** One three-way block from the blocks of both threads; None stands for a failed copy. */
  method UsingToDiff3Block(using: seq<seq<DiffBlock>>, lowThread: nat, highThread: nat, last: seq<int>, ghost f: seq<File>)
    returns (r: Option<Diff3Block>)
    requires |using| == 2 && lowThread < 2 && highThread < 2 && using[lowThread] != [] && using[highThread] != []
    requires Usable(using, last, f, using[lowThread][0].lowC, using[highThread][|using[highThread]| - 1].highC)
    ensures r.Some? && Okay3(r.value, f) && Agree(f, last, Before(r.value))
    ensures Ranges(using, last, r.value.low, r.value.high, f)
    ensures r.value.low[FILEC] == using[lowThread][0].lowC
    ensures r.value.high[FILEC] == using[highThread][|using[highThread]| - 1].highC
    ensures r.value.kind.DIFF_2ND? <==> using[0] == []
    ensures r.value.kind.DIFF_1ST? <==> using[0] != [] && using[1] == []
  {
    hide Usable, Ranges, Okay3, Agree, Pointers, Before, Segment, Common;
    var lowc, highc := using[lowThread][0].lowC, using[highThread][|using[highThread]| - 1].highC;
    var low, high := MapRanges(using, lowc, highc, last, f);
    var ok, lines0, lines1, linesC := GatherLines(using, low, high, last, f);
    if !ok {
      return None;
    }
    var kind := ChooseKind(using, lines0, lines1, f[0][low[0] - 1..high[0]], f[1][low[1] - 1..high[1]]);
    var b := Diff3Block(kind, low, high, [lines0[..], lines1[..], linesC[..]]);
    ProperBlock(using, last, b, f);
    r := Some(b);
  }

  /** The ranges of the three files. */
  method MapRanges(using: seq<seq<DiffBlock>>, lowc: int, highc: int, last: seq<int>, ghost f: seq<File>)
    returns (low: seq<int>, high: seq<int>)
    requires |using| == 2 && Usable(using, last, f, lowc, highc)
    ensures Ranges(using, last, low, high, f) && |low| == 3 && |high| == 3 && low[FILEC] == lowc && high[FILEC] == highc
    ensures |f| == 3 && forall d :: 0 <= d < 3 ==> 1 <= low[d] <= high[d] + 1 <= |f[d]| + 1
  {
    low := [LowMap(using[0], 0, last, lowc), LowMap(using[1], 1, last, lowc), lowc];
    high := [HighMap(using[0], 0, last, highc), HighMap(using[1], 1, last, highc), highc];
    RangesInBounds(using, last, low, high, f);
  }

  /** The line arrays of all three files. */
  method GatherLines(using: seq<seq<DiffBlock>>, low: seq<int>, high: seq<int>, ghost last: seq<int>, ghost f: seq<File>)
    returns (ok: bool, lines0: array<Pointer>, lines1: array<Pointer>, linesC: array<Pointer>)
    requires |using| == 2 && Ranges(using, last, low, high, f)
    requires forall d :: 0 <= d < 3 ==> 1 <= low[d] <= high[d] + 1 <= |f[d]| + 1
    ensures ok && lines0[..] == Pointers(f[0][low[0] - 1..high[0]]) && lines1[..] == Pointers(f[1][low[1] - 1..high[1]])
    ensures linesC[..] == Pointers(f[FILEC][low[FILEC] - 1..high[FILEC]])
  {
    assert Usable(using, last, f, low[FILEC], high[FILEC]);
    hide Usable, FilledTo, Pointers;
    var lowc, highc := low[FILEC], high[FILEC];
    ok, linesC := GatherCommon(using, lowc, highc, last, f);
    lines0 := GatherOther(using, 0, linesC, low[0], high[0], lowc, highc, last, f);
    lines1 := GatherOther(using, 1, linesC, low[1], high[1], lowc, highc, last, f);
    FilledIsSlice(linesC[..], f[FILEC], lowc, highc);
  }

  /** Some block used has a line, so the block made of them does too. */
  lemma NotEmpty(using: seq<seq<DiffBlock>>, last: seq<int>, f: seq<File>, lowc: int, highc: int)
    requires Usable(using, last, f, lowc, highc)
    ensures 0 < (HighMap(using[0], 0, last, highc) - LowMap(using[0], 0, last, lowc) + 1)
                + (HighMap(using[1], 1, last, highc) - LowMap(using[1], 1, last, lowc) + 1) + (highc - lowc + 1)
  {
    forall d | 0 <= d < 2 && using[d] != []
      ensures 0 < (HighMap(using[d], d, last, highc) - LowMap(using[d], d, last, lowc) + 1) + (highc - lowc + 1)
    {
      Mapped(using, last, f, lowc, highc, d);
      SegmentBounds(using[d], f[d], f[FILEC], LowMap(using[d], d, last, lowc) - 1, lowc - 1, HighMap(using[d], d, last, highc), highc);
      assert Okay(using[d][0], f[d], f[FILEC]);
    }
    Mapped(using, last, f, lowc, highc, 0);
    Mapped(using, last, f, lowc, highc, 1);
  }
}
