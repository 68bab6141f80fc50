/**
 Two-way and three-way diff blocks over a common file.

 Ranges count lines from 1 and are inclusive; an empty range ends just before it
 starts.  A thread is the list of blocks by which one file differs from the common one.
 */
module Diff3Blocks {
  import opened Text

  /** An entry of a line array: a pointer that may still be null. */
  datatype Pointer = Null | To(line: Line)

  datatype DiffBlock = DiffBlock(lowO: int, highO: int, lowC: int, highC: int, linesO: seq<Line>, linesC: seq<Line>) {
    function NumO(): int { highO - lowO + 1 }
    function NumC(): int { highC - lowC + 1 }
  }

  /** The block describes a slice of either file, not both empty. */
  ghost predicate Okay(b: DiffBlock, o: File, c: File) {
    && 1 <= b.lowO <= b.highO + 1 <= |o| + 1 && b.linesO == o[b.lowO - 1..b.highO]
    && 1 <= b.lowC <= b.highC + 1 <= |c| + 1 && b.linesC == c[b.lowC - 1..b.highC]
    && 0 < b.NumO() + b.NumC()
  }

  /** Stretches of equal lines, from line p of one file and q of the other to p' and q'. */
  ghost predicate Common(o: File, c: File, p: int, q: int, p': int, q': int) {
    && 0 <= p <= p' <= |o| && 0 <= q <= q' <= |c| && p' - p == q' - q
    && o[p..p'] == c[q..q']
  }

  /** The blocks are all by which the files differ between two pairs of positions (lines passed so far). */
  ghost predicate Segment(u: seq<DiffBlock>, o: File, c: File, p: int, q: int, p': int, q': int) {
    if u == [] then Common(o, c, p, q, p', q')
    else
      && Okay(u[0], o, c)
      && Common(o, c, p, q, u[0].lowO - 1, u[0].lowC - 1)
      && Segment(u[1..], o, c, u[0].highO, u[0].highC, p', q')
  }

  /** Between two blocks of a thread there is at least one common line. */
  ghost predicate Apart(u: seq<DiffBlock>) {
    forall i, j :: 0 <= i < j < |u| && j == i + 1 ==> u[i].highC + 1 < u[j].lowC
  }

  /** A two-way diff of a file against the common file. */
  ghost predicate IsThread(u: seq<DiffBlock>, o: File, c: File) {
    Segment(u, o, c, 0, 0, |o|, |c|) && Apart(u)
  }

  // ----- Cutting a segment in two

  lemma {:induction false} SegmentBounds(u: seq<DiffBlock>, o: File, c: File, p: int, q: int, p': int, q': int)
    requires Segment(u, o, c, p, q, p', q')
    ensures 0 <= p <= p' <= |o| && 0 <= q <= q' <= |c|
    ensures forall i :: 0 <= i < |u| ==> Okay(u[i], o, c) && q < u[i].lowC && u[i].highC <= q' && p < u[i].lowO && u[i].highO <= p'
    decreases |u|
  {
    if u != [] {
      SegmentBounds(u[1..], o, c, u[0].highO, u[0].highC, p', q');
      forall i | 0 <= i < |u|
        ensures Okay(u[i], o, c) && q < u[i].lowC && u[i].highC <= q' && p < u[i].lowO && u[i].highO <= p'
      {
        if i > 0 {
          assert u[i] == u[1..][i - 1];
        }
      }
    }
  }

  /** Where line k of the common file, just after the blocks u, is found in the other file. */
  function AfterLine(u: seq<DiffBlock>, p: int, q: int, k: int): int {
    if u == [] then k - q + p else k - u[|u| - 1].highC + u[|u| - 1].highO
  }

  lemma CutBefore(v: seq<DiffBlock>, o: File, c: File, p: int, q: int, p': int, q': int, k: int)
    requires Segment(v, o, c, p, q, p', q') && q <= k <= (if v == [] then q' else v[0].lowC - 1)
    ensures Common(o, c, p, q, k - q + p, k) && Segment(v, o, c, k - q + p, k, p', q')
  {
    if v == [] {
      CutCommon(o, c, p, q, k - q + p, k, p', q');
    } else {
      CutCommon(o, c, p, q, k - q + p, k, v[0].lowO - 1, v[0].lowC - 1);
    }
  }

  /** A thread can be cut anywhere between two of its blocks. */
  lemma {:induction false} CutSegment(u: seq<DiffBlock>, v: seq<DiffBlock>, o: File, c: File, p: int, q: int, p': int, q': int, k: int)
    requires Segment(u + v, o, c, p, q, p', q')
    requires (if u == [] then q else u[|u| - 1].highC) <= k
    requires k <= (if v == [] then q' else v[0].lowC - 1)
    ensures Segment(u, o, c, p, q, AfterLine(u, p, q, k), k)
    ensures Segment(v, o, c, AfterLine(u, p, q, k), k, p', q')
    decreases |u|
  {
    hide Okay, Common;
    if u == [] {
      assert u + v == v;
      CutBefore(v, o, c, p, q, p', q', k);
    } else {
      assert (u + v)[0] == u[0] && (u + v)[1..] == u[1..] + v;
      CutSegment(u[1..], v, o, c, u[0].highO, u[0].highC, p', q', k);
    }
  }

  lemma CutCommon(o: File, c: File, p: int, q: int, p'': int, q'': int, p': int, q': int)
    requires Common(o, c, p, q, p', q') && q <= q'' <= q' && p'' - p == q'' - q
    ensures Common(o, c, p, q, p'', q'') && Common(o, c, p'', q'', p', q')
  {
    CutSlice(o, p, p'', p');
    CutSlice(c, q, q'', q');
  }

  lemma CutSlice(s: File, a: int, m: int, b: int)
    requires 0 <= a <= m <= b <= |s|
    ensures s[a..m] == s[a..b][..m - a] && s[m..b] == s[a..b][m - a..]
  {
  }

  // ----- Three-way blocks

  datatype Kind = DIFF_ALL | DIFF_1ST | DIFF_2ND | DIFF_3RD

  /** Ranges and line arrays of files 0 and 1, and of the common file, which is file 2 here. */
  datatype Diff3Block = Diff3Block(kind: Kind, low: seq<int>, high: seq<int>, lines: seq<seq<Pointer>>) {
    function Num(d: nat): int
      requires d < |low| && d < |high|
    {
      high[d] - low[d] + 1
    }
  }

  const FILEC := 2

  ghost function Pointers(s: seq<Line>): (r: seq<Pointer>)
    ensures |r| == |s| && forall i :: 0 <= i < |s| ==> r[i] == To(s[i])
  {
    seq(|s|, i requires 0 <= i < |s| => To(s[i]))
  }

  /** The lines of file d that a block covers. */
  ghost function Slice(b: Diff3Block, f: seq<File>, d: nat): seq<Line>
    requires d < |f| && d < |b.low| && d < |b.high| && 1 <= b.low[d] <= b.high[d] + 1 <= |f[d]| + 1
  {
    f[d][b.low[d] - 1..b.high[d]]
  }

  ghost predicate InRange(b: Diff3Block, f: seq<File>) {
    && |f| == 3 && |b.low| == 3 && |b.high| == 3 && |b.lines| == 3
    && forall d :: 0 <= d < 3 ==> 1 <= b.low[d] <= b.high[d] + 1 <= |f[d]| + 1
  }

  /** The type says which slices agree. */
  ghost predicate RightKind(b: Diff3Block, f: seq<File>)
    requires InRange(b, f)
  {
    match b.kind
    case DIFF_ALL => Slice(b, f, 0) != Slice(b, f, 1)
    case DIFF_1ST => Slice(b, f, 1) == Slice(b, f, FILEC)
    case DIFF_2ND => Slice(b, f, 0) == Slice(b, f, FILEC)
    case DIFF_3RD => Slice(b, f, 0) == Slice(b, f, 1)
  }

  /** The line arrays hold exactly the slices of the three files, and the slices are not all empty. */
  ghost predicate Okay3(b: Diff3Block, f: seq<File>) {
    && InRange(b, f)
    && (forall d :: 0 <= d < 3 ==> b.lines[d] == Pointers(Slice(b, f, d)))
    && RightKind(b, f)
    && 0 < b.Num(0) + b.Num(1) + b.Num(2)
  }

  /** The files agree from the given positions up to the block, or to their ends. */
  ghost predicate Agree(f: seq<File>, p: seq<int>, p': seq<int>) {
    && |f| == 3 && |p| == 3 && |p'| == 3
    && Common(f[0], f[FILEC], p[0], p[FILEC], p'[0], p'[FILEC])
    && Common(f[1], f[FILEC], p[1], p[FILEC], p'[1], p'[FILEC])
  }

  ghost function Before(b: Diff3Block): seq<int>
    requires |b.low| == 3
  {
    [b.low[0] - 1, b.low[1] - 1, b.low[2] - 1]
  }

  ghost function Lengths(f: seq<File>): seq<int>
    requires |f| == 3
  {
    [|f[0]|, |f[1]|, |f[2]|]
  }

  /** The blocks are ordered, with common lines in between, and outside them all three files agree. */
  ghost predicate Segment3(bs: seq<Diff3Block>, f: seq<File>, p: seq<int>, p': seq<int>) {
    if bs == [] then Agree(f, p, p')
    else
      && Okay3(bs[0], f)
      && Agree(f, p, Before(bs[0]))
      && Segment3(bs[1..], f, bs[0].high, p')
  }

  /** There is a line of the common file between the blocks. */
  ghost predicate Below(b: Diff3Block, b': Diff3Block) {
    |b.high| == 3 && |b'.low| == 3 && b.high[FILEC] + 1 < b'.low[FILEC]
  }

  ghost predicate Apart3(bs: seq<Diff3Block>) {
    forall i, j :: 0 <= i < j < |bs| && j == i + 1 ==> Below(bs[i], bs[j])
  }

  /** A three-way diff of three files. */
  ghost predicate IsDiff3(bs: seq<Diff3Block>, f: seq<File>) {
    |f| == 3 && Segment3(bs, f, [0, 0, 0], Lengths(f)) && Apart3(bs)
  }

  lemma CommonJoin(o: File, c: File, p: int, q: int, p'': int, q'': int, p': int, q': int)
    requires Common(o, c, p, q, p'', q'') && Common(o, c, p'', q'', p', q')
    ensures Common(o, c, p, q, p', q')
  {
    assert o[p..p'] == o[p..p''] + o[p''..p'] && c[q..q'] == c[q..q''] + c[q''..q'];
  }

  lemma AgreeJoin(f: seq<File>, p: seq<int>, p'': seq<int>, p': seq<int>)
    requires Agree(f, p, p'') && Agree(f, p'', p')
    ensures Agree(f, p, p')
  {
    CommonJoin(f[0], f[FILEC], p[0], p[FILEC], p''[0], p''[FILEC], p'[0], p'[FILEC]);
    CommonJoin(f[1], f[FILEC], p[1], p[FILEC], p''[1], p''[FILEC], p'[1], p'[FILEC]);
  }

  /** More agreeing lines at the end. */
  lemma {:induction false} ExtendSegment3(bs: seq<Diff3Block>, f: seq<File>, p: seq<int>, p'': seq<int>, p': seq<int>)
    requires Segment3(bs, f, p, p'') && Agree(f, p'', p')
    ensures Segment3(bs, f, p, p')
    decreases |bs|
  {
    if bs == [] {
      AgreeJoin(f, p, p'', p');
    } else {
      ExtendSegment3(bs[1..], f, bs[0].high, p'', p');
    }
  }

  /** More agreeing lines and then a block at the end. */
  lemma {:induction false} AppendBlock(bs: seq<Diff3Block>, b: Diff3Block, f: seq<File>, p: seq<int>, p': seq<int>)
    requires Segment3(bs, f, p, p') && Okay3(b, f) && Agree(f, p', Before(b))
    ensures Segment3(bs + [b], f, p, b.high)
    decreases |bs|
  {
    assert |b.low| == 3 && |b.high| == 3;
    hide Okay3, RightKind;
    if bs == [] {
      AgreeJoin(f, p, p', Before(b));
      assert (bs + [b])[0] == b && (bs + [b])[1..] == [];
      AgreeNowhere(b, f);
    } else {
      assert (bs + [b])[0] == bs[0] && (bs + [b])[1..] == bs[1..] + [b];
      AppendBlock(bs[1..], b, f, bs[0].high, p');
    }
  }

  lemma AgreeNowhere(b: Diff3Block, f: seq<File>)
    requires Okay3(b, f)
    ensures Agree(f, b.high, b.high)
  {
  }
}
