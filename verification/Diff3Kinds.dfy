/**
 What the type of a three-way block tells of the files.

 In a block of type DIFF_1ST only the first file should differ, in one of type DIFF_3RD only the
 third, and in one of type DIFF_ALL all three.  Whether they do depends on the two-way diffs: a
 file in which blocks were used is as the common file after all exactly if its diff could have
 done without them.
 */
module Diff3Kinds {
  import opened Text
  import opened Diff3Blocks
  import opened Make3Way
  import opened Diff3Merge

  // ----- Leaving blocks out of a thread

  lemma PrependCommon(v: seq<DiffBlock>, o: File, c: File, p: int, q: int, p'': int, q'': int, p': int, q': int)
    requires Common(o, c, p, q, p'', q'') && Segment(v, o, c, p'', q'', p', q')
    ensures Segment(v, o, c, p, q, p', q')
  {
    hide Common, Okay;
    if v == [] {
      CommonJoin(o, c, p, q, p'', q'', p', q');
    } else {
      CommonJoin(o, c, p, q, p'', q'', v[0].lowO - 1, v[0].lowC - 1);
    }
  }

  lemma {:induction false} JoinSegment(u: seq<DiffBlock>, v: seq<DiffBlock>, o: File, c: File, p: int, q: int, p'': int, q'': int, p': int, q': int)
    requires Segment(u, o, c, p, q, p'', q'') && Segment(v, o, c, p'', q'', p', q')
    ensures Segment(u + v, o, c, p, q, p', q')
    decreases |u|
  {
    hide Common, Okay;
    if u == [] {
      assert u + v == v;
      PrependCommon(v, o, c, p, q, p'', q'', p', q');
    } else {
      assert (u + v)[0] == u[0] && (u + v)[1..] == u[1..] + v;
      JoinSegment(u[1..], v, o, c, u[0].highO, u[0].highC, p'', q'', p', q');
    }
  }

  /** Blocks at the beginning can be left out exactly if all lines that they could stand for are the same. */
  lemma LeaveOut(mid: seq<DiffBlock>, post: seq<DiffBlock>, o: File, c: File, p: int, q: int, p': int, q': int,
                 ko: int, k: int, ho: int, h: int)
    requires Segment(mid + post, o, c, p, q, p', q') && q <= k <= h <= q'
    requires mid != [] ==> k < mid[0].lowC && mid[|mid| - 1].highC <= h
    requires post != [] ==> h < post[0].lowC
    requires ko - p == k - q && ho == AfterLine(mid, p, q, h)
    ensures 0 <= ko <= ho <= |o| && 0 <= k <= h <= |c|
    ensures Segment(mid, o, c, p, q, ho, h) && Segment(post, o, c, ho, h, p', q')
    ensures o[ko..ho] == c[k..h] <==> Segment(post, o, c, p, q, p', q')
  {
    hide Segment, Common;
    CutSegment(mid, post, o, c, p, q, p', q', h);
    CutBefore(mid, o, c, p, q, ho, h, k);
    SegmentBounds(mid, o, c, ko, k, ho, h);
    SegmentBounds(post, o, c, ho, h, p', q');
    CommonIs(o, c, ko, k, ho, h);
    if o[ko..ho] == c[k..h] {
      SameLength(o, c, ko, k, ho, h);
      CommonJoin(o, c, p, q, ko, k, ho, h);
      PrependCommon(post, o, c, p, q, ho, h, p', q');
    }
    if Segment(post, o, c, p, q, p', q') {
      CutBefore(post, o, c, p, q, p', q', h);
      SegmentGrowth(post, o, c, ho, h, p', q');
      SegmentGrowth(post, o, c, h - q + p, h, p', q');
      CutCommon(o, c, p, q, ko, k, ho, h);
    }
  }

  lemma CommonIs(o: File, c: File, p: int, q: int, p': int, q': int)
    requires 0 <= p <= p' <= |o| && 0 <= q <= q' <= |c|
    ensures Common(o, c, p, q, p', q') <==> p' - p == q' - q && o[p..p'] == c[q..q']
  {
  }

  lemma SameLength(o: File, c: File, p: int, q: int, p': int, q': int)
    requires 0 <= p <= p' <= |o| && 0 <= q <= q' <= |c| && o[p..p'] == c[q..q']
    ensures p' - p == q' - q
  {
    assert |o[p..p']| == |c[q..q']|;
  }

  /** Without some blocks in the middle, the others are still apart. */
  lemma ApartWithout(pre: seq<DiffBlock>, mid: seq<DiffBlock>, post: seq<DiffBlock>)
    requires Apart(pre + mid + post) && forall i :: 0 <= i < |mid| ==> mid[i].lowC <= mid[i].highC + 1
    ensures Apart(pre + post)
  {
    var u, w, m := pre + mid + post, pre + post, |mid|;
    forall i, j | 0 <= i < j < |w| && j == i + 1
      ensures w[i].highC + 1 < w[j].lowC
    {
      if j < |pre| {
        assert w[i] == u[i] && w[j] == u[j];
      } else if i >= |pre| {
        assert w[i] == u[i + m] && w[j] == u[j + m];
      } else {
        assert w[i] == u[i] && w[j] == u[j + m];
        FarApart(u, i, j + m, |pre|, m);
      }
    }
  }

  lemma {:induction false} FarApart(u: seq<DiffBlock>, i: nat, j: nat, from: nat, m: nat)
    requires Apart(u) && i < j < |u| && from <= i + 1 && j <= from + m
    requires forall k :: from <= k < from + m && k < |u| ==> u[k].lowC <= u[k].highC + 1
    ensures u[i].highC + 1 < u[j].lowC
    decreases j
  {
    if i + 1 < j {
      FarApart(u, i, j - 1, from, m);
    }
  }

  // ----- Rounds

  /** All the blocks of thread d but those of round i. */
  ghost function Without(used: seq<seq<seq<DiffBlock>>>, i: nat, d: nat): seq<DiffBlock>
    requires d < 2 && i < |used| && forall j :: 0 <= j < |used| ==> |used[j]| == 2
  {
    Chain(used[..i], d) + Chain(used[i + 1..], d)
  }

  ghost predicate Made(bs: seq<Diff3Block>, used: seq<seq<seq<DiffBlock>>>) {
    |used| == |bs| && forall i :: 0 <= i < |bs| ==> MadeOf(bs[i], used[i])
  }

  lemma MadeTwo(bs: seq<Diff3Block>, used: seq<seq<seq<DiffBlock>>>)
    requires Made(bs, used)
    ensures |used| == |bs| && forall i :: 0 <= i < |used| ==> |used[i]| == 2
    ensures bs != [] ==> MadeOf(bs[0], used[0]) && Made(bs[1..], used[1..])
  {
    hide MadeOf;
    forall i | 0 <= i < |used|
      ensures |used[i]| == 2
    {
      TwoThreads(bs[i], used[i]);
    }
    forall i | 0 <= i < |bs| - 1
      ensures MadeOf(bs[1..][i], used[1..][i])
    {
      assert bs[1..][i] == bs[i + 1] && used[1..][i] == used[i + 1];
    }
  }

  lemma {:induction false} ChainFront(used: seq<seq<seq<DiffBlock>>>, d: nat)
    requires d < 2 && used != [] && forall j :: 0 <= j < |used| ==> |used[j]| == 2
    ensures Chain(used, d) == used[0][d] + Chain(used[1..], d)
    decreases |used|
  {
    hide Chain;
    var n := |used| - 1;
    ChainLast(used, d);
    if n == 0 {
      assert used[..0] == [] && used[1..] == [];
      ChainOfNone(d);
    } else {
      var front := used[..n];
      ChainFront(front, d);
      ChainLast(used[1..], d);
      assert used[1..][..n - 1] == front[1..] && used[1..][n - 1] == used[n];
      Regroup(used[0][d], Chain(front[1..], d), used[n][d]);
    }
  }

  lemma ChainOfNone(d: nat)
    requires d < 2
    ensures Chain([], d) == []
  {
  }

  lemma Regroup(a: seq<DiffBlock>, b: seq<DiffBlock>, c: seq<DiffBlock>)
    ensures a + b + c == a + (b + c)
  {
  }

  lemma WithoutFront(used: seq<seq<seq<DiffBlock>>>, i: nat, d: nat)
    requires d < 2 && i < |used| && forall j :: 0 <= j < |used| ==> |used[j]| == 2
    ensures i == 0 ==> Without(used, i, d) == Chain(used[1..], d)
    ensures i > 0 ==> Without(used, i, d) == used[0][d] + Without(used[1..], i - 1, d)
  {
    if i == 0 {
      assert used[..0] == [];
    } else {
      ChainFront(used[..i], d);
      assert used[..i][1..] == used[1..][..i - 1] && used[i + 1..] == used[1..][i..];
    }
  }

  /** The thread, with the blocks of round i in their place. */
  lemma {:induction false} WithRound(used: seq<seq<seq<DiffBlock>>>, i: nat, d: nat)
    requires d < 2 && i < |used| && forall j :: 0 <= j < |used| ==> |used[j]| == 2
    ensures Chain(used, d) == Chain(used[..i], d) + used[i][d] + Chain(used[i + 1..], d)
    decreases |used|
  {
    ChainFront(used, d);
    if i == 0 {
      assert used[..0] == [];
    } else {
      WithRound(used[1..], i - 1, d);
      ChainFront(used[..i], d);
      assert used[..i][1..] == used[1..][..i - 1] && used[i + 1..] == used[1..][i..];
    }
  }

  /** All blocks begin behind line k. */
  ghost predicate Behind(u: seq<DiffBlock>, k: int) {
    forall j :: 0 <= j < |u| ==> k < u[j].lowC
  }

  lemma {:induction false} ChainBehind(used: seq<seq<seq<DiffBlock>>>, d: nat, k: int)
    requires d < 2 && forall j :: 0 <= j < |used| ==> |used[j]| == 2 && Behind(used[j][d], k)
    ensures Behind(Chain(used, d), k)
    decreases |used|
  {
    if used != [] {
      ChainBehind(used[..|used| - 1], d, k);
    }
  }

  /** Later rounds have used blocks behind this one only. */
  lemma {:induction false} RoundsBehind(bs: seq<Diff3Block>, used: seq<seq<seq<DiffBlock>>>, f: seq<File>, p: seq<int>, k: int, d: nat)
    requires d < 2 && Rest(bs, f, p) && Made(bs, used) && |used| == |bs|
    requires bs != [] ==> |bs[0].low| == 3 && k < bs[0].low[FILEC]
    ensures forall i :: 0 <= i < |used| ==> |used[i]| == 2 && Behind(used[i][d], k)
    decreases |bs|
  {
    if bs != [] {
      MadeTwo(bs, used);
      RestNext(bs, f, p);
      hide Made, Segment3, MadeOf, Rest;
      BlockLies(bs[0], used[0], f);
      if |bs| > 1 {
        NextBehind(bs, f, p);
      }
      RoundsBehind(bs[1..], used[1..], f, bs[0].high, k, d);
      forall i | 0 <= i < |used|
        ensures Behind(used[i][d], k)
      {
        if i > 0 {
          assert used[i] == used[1..][i - 1];
        }
      }
    }
  }

  lemma NextBehind(bs: seq<Diff3Block>, f: seq<File>, p: seq<int>)
    requires Rest(bs, f, p) && |bs| > 1
    ensures |bs[0].high| == 3 && |bs[1].low| == 3 && bs[1..][0] == bs[1] && bs[0].high[FILEC] + 1 < bs[1].low[FILEC]
  {
    hide Segment3;
    assert Below(bs[0], bs[1]);
  }

  /** The blocks lie within the block made of them. */
  lemma BlockLies(b: Diff3Block, using: seq<seq<DiffBlock>>, f: seq<File>)
    requires MadeOf(b, using) && Okay3(b, f)
    ensures |using| == 2 && |f| == 3 && |b.low| == 3 && |b.high| == 3 && b.low[FILEC] <= b.high[FILEC] + 1
    ensures forall d :: 0 <= d < 2 ==> Behind(using[d], b.low[FILEC] - 1)
    ensures forall d, i :: 0 <= d < 2 && 0 <= i < |using[d]| ==> using[d][i].highC <= b.high[FILEC]
    ensures forall d :: 0 <= d < 2 ==> b.Num(d) == b.Num(FILEC) + Growth(using[d])
  {
    hide Covered, RightKind, Growth;
  }

  // ----- Which slices are the common file's

  lemma BlockStarts(b: Diff3Block, f: seq<File>, p: seq<int>, d: nat)
    requires d < 2 && Okay3(b, f) && |p| == 3 && Agree(f, p, Before(b))
    ensures InRange(b, f) && b.low[d] - 1 - p[d] == b.low[FILEC] - 1 - p[FILEC]
    ensures p[FILEC] <= b.low[FILEC] - 1 <= b.high[FILEC] <= |f[FILEC]|
  {
    hide RightKind;
  }

  lemma LaterBehind(bs: seq<Diff3Block>, used: seq<seq<seq<DiffBlock>>>, f: seq<File>, p: seq<int>, d: nat)
    requires d < 2 && bs != [] && Rest(bs, f, p) && Made(bs, used) && |used| == |bs|
    requires forall j :: 0 <= j < |used| ==> |used[j]| == 2
    ensures |bs[0].high| == 3 && Behind(Chain(used[1..], d), bs[0].high[FILEC])
  {
    hide Segment3, MadeOf, Chain;
    MadeTwo(bs, used);
    RestNext(bs, f, p);
    if |bs| > 1 {
      NextBehind(bs, f, p);
    }
    RoundsBehind(bs[1..], used[1..], f, bs[0].high, bs[0].high[FILEC], d);
    ChainBehind(used[1..], d, bs[0].high[FILEC]);
  }

  /** The blocks used lead to the end of the block made of them. */
  lemma AfterIsHigh(b: Diff3Block, mid: seq<DiffBlock>, post: seq<DiffBlock>, f: seq<File>, p: seq<int>, d: nat)
    requires d < 2 && InRange(b, f) && |p| == 3 && b.low[d] - 1 - p[d] == b.low[FILEC] - 1 - p[FILEC]
    requires p[FILEC] <= b.high[FILEC] && b.Num(d) == b.Num(FILEC) + Growth(mid)
    requires Segment(mid + post, f[d], f[FILEC], p[d], p[FILEC], |f[d]|, |f[FILEC]|)
    requires mid != [] ==> mid[|mid| - 1].highC <= b.high[FILEC]
    requires Behind(post, b.high[FILEC])
    ensures b.high[d] == AfterLine(mid, p[d], p[FILEC], b.high[FILEC])
  {
    hide Segment, Growth;
    CutSegment(mid, post, f[d], f[FILEC], p[d], p[FILEC], |f[d]|, |f[FILEC]|, b.high[FILEC]);
    SegmentGrowth(mid, f[d], f[FILEC], p[d], p[FILEC], AfterLine(mid, p[d], p[FILEC], b.high[FILEC]), b.high[FILEC]);
  }

  /** The first block of the rest of a three-way diff, and the rest of a thread. */
  lemma RoundTells(bs: seq<Diff3Block>, used: seq<seq<seq<DiffBlock>>>, f: seq<File>, p: seq<int>, d: nat)
    requires d < 2 && bs != [] && Rest(bs, f, p) && Made(bs, used) && |used| == |bs|
    requires forall j :: 0 <= j < |used| ==> |used[j]| == 2
    requires Segment(used[0][d] + Chain(used[1..], d), f[d], f[FILEC], p[d], p[FILEC], |f[d]|, |f[FILEC]|)
    ensures InRange(bs[0], f) && Okay3(bs[0], f) && Rest(bs[1..], f, bs[0].high)
    ensures Segment(used[0][d], f[d], f[FILEC], p[d], p[FILEC], bs[0].high[d], bs[0].high[FILEC])
    ensures Segment(Chain(used[1..], d), f[d], f[FILEC], bs[0].high[d], bs[0].high[FILEC], |f[d]|, |f[FILEC]|)
    ensures Behind(Chain(used[1..], d), bs[0].high[FILEC])
    ensures Slice(bs[0], f, d) == Slice(bs[0], f, FILEC)
            <==> Segment(Chain(used[1..], d), f[d], f[FILEC], p[d], p[FILEC], |f[d]|, |f[FILEC]|)
  {
    hide Segment, Segment3, Made, MadeOf, Rest, Agree, Okay3, Chain, Growth, InRange, Slice, Behind, Before, AfterLine;
    RestShape(bs, f, p);
    RestNext(bs, f, p);
    MadeTwo(bs, used);
    var b, mid, post := bs[0], used[0][d], Chain(used[1..], d);
    BlockLies(b, used[0], f);
    BlockStarts(b, f, p, d);
    LaterBehind(bs, used, f, p, d);
    AfterIsHigh(b, mid, post, f, p, d);
    BehindFirst(mid, b.low[FILEC] - 1);
    BehindFirst(post, b.high[FILEC]);
    LeaveOut(mid, post, f[d], f[FILEC], p[d], p[FILEC], |f[d]|, |f[FILEC]|,
             b.low[d] - 1, b.low[FILEC] - 1, b.high[d], b.high[FILEC]);
    SlicesAre(b, f, d);
  }

  lemma BehindFirst(u: seq<DiffBlock>, k: int)
    requires Behind(u, k)
    ensures u != [] ==> k < u[0].lowC
  {
  }

  lemma SlicesAre(b: Diff3Block, f: seq<File>, d: nat)
    requires InRange(b, f) && d < 2
    ensures |f| == 3 && |b.low| == 3 && |b.high| == 3
    ensures 0 <= b.low[d] - 1 <= b.high[d] <= |f[d]| && Slice(b, f, d) == f[d][b.low[d] - 1..b.high[d]]
    ensures 0 <= b.low[2] - 1 <= b.high[2] <= |f[2]| && Slice(b, f, 2) == f[2][b.low[2] - 1..b.high[2]]
  {
  }

  /** A file's lines in a block are the common file's exactly if the rest of its thread can do without the blocks used. */
  lemma {:induction false} SlicesTell(bs: seq<Diff3Block>, used: seq<seq<seq<DiffBlock>>>, f: seq<File>, p: seq<int>, i: nat, d: nat)
    requires d < 2 && i < |bs| && Rest(bs, f, p) && Made(bs, used) && |used| == |bs|
    requires forall j :: 0 <= j < |used| ==> |used[j]| == 2
    requires Segment(Chain(used, d), f[d], f[FILEC], p[d], p[FILEC], |f[d]|, |f[FILEC]|)
    ensures InRange(bs[i], f) && Okay3(bs[i], f)
    ensures Slice(bs[i], f, d) == Slice(bs[i], f, FILEC)
            <==> Segment(Without(used, i, d), f[d], f[FILEC], p[d], p[FILEC], |f[d]|, |f[FILEC]|)
    decreases |bs|
  {
    hide Segment, Segment3, Rest, Made, MadeOf, Without, Slice, Chain, InRange, Okay3, Behind;
    RestShape(bs, f, p);
    ChainFront(used, d);
    WithoutFront(used, i, d);
    RoundTells(bs, used, f, p, d);
    if i > 0 {
      MadeTwo(bs, used);
      RestNext(bs, f, p);
      SlicesTell(bs[1..], used[1..], f, bs[0].high, i - 1, d);
      SplitOff(bs[0], used, f, p, i, d);
    }
  }

  /** Leaving out blocks of a later round. */
  lemma SplitOff(b: Diff3Block, used: seq<seq<seq<DiffBlock>>>, f: seq<File>, p: seq<int>, i: nat, d: nat)
    requires d < 2 && 0 < i < |used| && |f| == 3 && |p| == 3 && |b.high| == 3 && (forall j :: 0 <= j < |used| ==> |used[j]| == 2)
    requires Segment(used[0][d], f[d], f[FILEC], p[d], p[FILEC], b.high[d], b.high[FILEC])
    requires Segment(Chain(used[1..], d), f[d], f[FILEC], b.high[d], b.high[FILEC], |f[d]|, |f[FILEC]|)
    requires Behind(Chain(used[1..], d), b.high[FILEC])
    ensures var rest := Without(used[1..], i - 1, d);
            Segment(used[0][d] + rest, f[d], f[FILEC], p[d], p[FILEC], |f[d]|, |f[FILEC]|)
            <==> Segment(rest, f[d], f[FILEC], b.high[d], b.high[FILEC], |f[d]|, |f[FILEC]|)
  {
    hide Segment, Without, Chain, Behind, AfterLine;
    var u, rest, h := used[0][d], Without(used[1..], i - 1, d), b.high[FILEC];
    WithoutBehind(used[1..], i - 1, d, h);
    BehindFirst(rest, h);
    SegmentBounds(Chain(used[1..], d), f[d], f[FILEC], b.high[d], h, |f[d]|, |f[FILEC]|);
    SplitBehind(u, rest, f[d], f[FILEC], p[d], p[FILEC], b.high[d], h, |f[d]|, |f[FILEC]|);
  }

  lemma SplitBehind(u: seq<DiffBlock>, v: seq<DiffBlock>, o: File, c: File, p: int, q: int, ho: int, h: int, p': int, q': int)
    requires Segment(u, o, c, p, q, ho, h) && h <= q' && (v != [] ==> h < v[0].lowC)
    ensures Segment(u + v, o, c, p, q, p', q') <==> Segment(v, o, c, ho, h, p', q')
  {
    hide Segment;
    SegmentBounds(u, o, c, p, q, ho, h);
    if Segment(u + v, o, c, p, q, p', q') {
      CutSegment(u, v, o, c, p, q, p', q', h);
      SegmentGrowth(u, o, c, p, q, ho, h);
      SegmentGrowth(u, o, c, p, q, AfterLine(u, p, q, h), h);
    }
    if Segment(v, o, c, ho, h, p', q') {
      JoinSegment(u, v, o, c, p, q, ho, h, p', q');
    }
  }

  lemma WithoutBehind(used: seq<seq<seq<DiffBlock>>>, i: nat, d: nat, k: int)
    requires d < 2 && i < |used| && (forall j :: 0 <= j < |used| ==> |used[j]| == 2) && Behind(Chain(used, d), k)
    ensures Behind(Without(used, i, d), k)
  {
    var pre, mid, post := Chain(used[..i], d), used[i][d], Chain(used[i + 1..], d);
    WithRound(used, i, d);
    hide Chain;
    var all := pre + mid + post;
    forall j | 0 <= j < |pre + post|
      ensures k < (pre + post)[j].lowC
    {
      assert (pre + post)[j] == all[if j < |pre| then j else j + |mid|];
    }
  }

  /** What the two threads of a whole three-way diff have to do with its blocks. */
  ghost predicate WovenOf(bs: seq<Diff3Block>, used: seq<seq<seq<DiffBlock>>>, thread0: seq<DiffBlock>, thread1: seq<DiffBlock>, f: seq<File>) {
    && IsDiff3(bs, f) && Woven(bs, used, [[], []], thread0, thread1)
    && IsThread(thread0, f[0], f[FILEC]) && IsThread(thread1, f[1], f[FILEC])
  }

  /** The file is as the common file in the block, exactly if its thread without the blocks used is a two-way diff too. */
  lemma SuperfluousBlocks(bs: seq<Diff3Block>, used: seq<seq<seq<DiffBlock>>>, thread0: seq<DiffBlock>, thread1: seq<DiffBlock>,
                          f: seq<File>, i: nat, d: nat)
    requires WovenOf(bs, used, thread0, thread1, f) && i < |bs| && d < 2
    ensures |f| == 3 && |used| == |bs| && (forall j :: 0 <= j < |used| ==> |used[j]| == 2) && Okay3(bs[i], f) && MadeOf(bs[i], used[i])
    ensures (if d == 0 then thread0 else thread1) == Chain(used[..i], d) + used[i][d] + Chain(used[i + 1..], d)
    ensures Slice(bs[i], f, d) == Slice(bs[i], f, FILEC) <==> IsThread(Without(used, i, d), f[d], f[FILEC])
  {
    hide Segment, Segment3, MadeOf, Chain, Slice, Okay3, Apart, Apart3, Without;
    var thread := if d == 0 then thread0 else thread1;
    assert Made(bs, used);
    MadeTwo(bs, used);
    assert Chain(used, d) == thread;
    WithRound(used, i, d);
    Merger.RestStart(bs, f);
    SlicesTell(bs, used, f, [0, 0, 0], i, d);
    SegmentBounds(thread, f[d], f[FILEC], 0, 0, |f[d]|, |f[FILEC]|);
    StillApart(used, thread, f[d], f[FILEC], i, d);
  }

  lemma StillApart(used: seq<seq<seq<DiffBlock>>>, thread: seq<DiffBlock>, o: File, c: File, i: nat, d: nat)
    requires d < 2 && i < |used| && forall j :: 0 <= j < |used| ==> |used[j]| == 2
    requires thread == Chain(used[..i], d) + used[i][d] + Chain(used[i + 1..], d)
    requires Apart(thread) && forall j :: 0 <= j < |thread| ==> Okay(thread[j], o, c)
    ensures Apart(Without(used, i, d))
  {
    hide Apart, Chain;
    var pre, mid, post := Chain(used[..i], d), used[i][d], Chain(used[i + 1..], d);
    forall j | 0 <= j < |mid|
      ensures mid[j].lowC <= mid[j].highC + 1
    {
      assert mid[j] == thread[|pre| + j];
    }
    ApartWithout(pre, mid, post);
  }

  /** The type is true of the three slices: which of them differ, and which agree. */
  ghost predicate Telling(b: Diff3Block, f: seq<File>)
    requires InRange(b, f)
  {
    var s0, s1, s2 := Slice(b, f, 0), Slice(b, f, 1), Slice(b, f, FILEC);
    match b.kind
    case DIFF_ALL => s0 != s1 && s0 != s2 && s1 != s2
    case DIFF_1ST => s0 != s2 && s1 == s2
    case DIFF_2ND => s0 == s2 && s1 != s2
    case DIFF_3RD => s0 == s1 && s0 != s2
  }

  /** The blocks of thread d that were used in round i are needed. */
  ghost predicate Needed(used: seq<seq<seq<DiffBlock>>>, f: seq<File>, i: nat, d: nat)
    requires d < 2 && i < |used| && |f| == 3 && forall j :: 0 <= j < |used| ==> |used[j]| == 2
  {
    used[i][d] == [] || !IsThread(Without(used, i, d), f[d], f[FILEC])
  }

  /** The type of a block is true exactly if neither thread could do without the blocks it is made of. */
  lemma TypeTells(bs: seq<Diff3Block>, used: seq<seq<seq<DiffBlock>>>, thread0: seq<DiffBlock>, thread1: seq<DiffBlock>, f: seq<File>, i: nat)
    requires WovenOf(bs, used, thread0, thread1, f) && i < |bs|
    ensures |f| == 3 && |used| == |bs| && (forall j :: 0 <= j < |used| ==> |used[j]| == 2) && InRange(bs[i], f)
    ensures Telling(bs[i], f) <==> Needed(used, f, i, 0) && Needed(used, f, i, 1)
  {
    hide WovenOf, IsThread, Slice, Without, Chain;
    SuperfluousBlocks(bs, used, thread0, thread1, f, i, 0);
    SuperfluousBlocks(bs, used, thread0, thread1, f, i, 1);
    KindOf(bs[i], used[i], f);
  }

  lemma KindOf(b: Diff3Block, using: seq<seq<DiffBlock>>, f: seq<File>)
    requires Okay3(b, f) && MadeOf(b, using)
    ensures InRange(b, f) && RightKind(b, f) && |using| == 2 && (using[0] != [] || using[1] != [])
    ensures (b.kind.DIFF_2ND? <==> using[0] == []) && (b.kind.DIFF_1ST? <==> using[0] != [] && using[1] == [])
  {
    hide RightKind, Covered, Growth, Pointers;
  }

  // ----- Two-way diffs of as few lines as possible

  ghost function Changed(u: seq<DiffBlock>): int {
    if u == [] then 0 else u[0].NumO() + u[0].NumC() + Changed(u[1..])
  }

  /** No two-way diff of the files changes fewer lines. */
  ghost predicate ShortestThread(u: seq<DiffBlock>, o: File, c: File) {
    IsThread(u, o, c) && forall v: seq<DiffBlock> :: IsThread(v, o, c) ==> Changed(u) <= Changed(v)
  }

  lemma {:induction false} ChangedJoin(u: seq<DiffBlock>, v: seq<DiffBlock>)
    ensures Changed(u + v) == Changed(u) + Changed(v)
    decreases |u|
  {
    if u == [] {
      assert u + v == v;
    } else {
      assert (u + v)[0] == u[0] && (u + v)[1..] == u[1..] + v;
      ChangedJoin(u[1..], v);
    }
  }

  lemma {:induction false} SomeChanged(u: seq<DiffBlock>, o: File, c: File)
    requires forall j :: 0 <= j < |u| ==> Okay(u[j], o, c)
    ensures u != [] ==> 0 < Changed(u)
    decreases |u|
  {
    if u != [] {
      SomeChanged(u[1..], o, c);
    }
  }

  /** In a three-way diff woven from shortest two-way diffs, every type is true. */
  lemma ShortestTell(bs: seq<Diff3Block>, used: seq<seq<seq<DiffBlock>>>, thread0: seq<DiffBlock>, thread1: seq<DiffBlock>, f: seq<File>, i: nat)
    requires WovenOf(bs, used, thread0, thread1, f) && i < |bs|
    requires |f| == 3 && ShortestThread(thread0, f[0], f[FILEC]) && ShortestThread(thread1, f[1], f[FILEC])
    ensures InRange(bs[i], f) && Telling(bs[i], f)
  {
    hide WovenOf, ShortestThread, Telling, IsThread;
    TypeTells(bs, used, thread0, thread1, f, i);
    SuperfluousBlocks(bs, used, thread0, thread1, f, i, 0);
    SuperfluousBlocks(bs, used, thread0, thread1, f, i, 1);
    ShortestNeeds(used, thread0, f, i, 0);
    ShortestNeeds(used, thread1, f, i, 1);
  }

  lemma ShortestNeeds(used: seq<seq<seq<DiffBlock>>>, thread: seq<DiffBlock>, f: seq<File>, i: nat, d: nat)
    requires d < 2 && i < |used| && |f| == 3 && forall j :: 0 <= j < |used| ==> |used[j]| == 2
    requires ShortestThread(thread, f[d], f[FILEC])
    requires thread == Chain(used[..i], d) + used[i][d] + Chain(used[i + 1..], d)
    ensures Needed(used, f, i, d)
  {
    hide Chain, Segment, Changed, Apart, Okay;
    var pre, mid, post := Chain(used[..i], d), used[i][d], Chain(used[i + 1..], d);
    ChangedJoin(pre + mid, post);
    ChangedJoin(pre, mid);
    ChangedJoin(pre, post);
    SegmentBounds(thread, f[d], f[FILEC], 0, 0, |f[d]|, |f[FILEC]|);
    forall j | 0 <= j < |mid|
      ensures Okay(mid[j], f[d], f[FILEC])
    {
      assert mid[j] == thread[|pre| + j];
    }
    SomeChanged(mid, f[d], f[FILEC]);
  }

  // ----- A type that is not true

  lemma TwoBlocks(u: seq<DiffBlock>, o: File, c: File)
    requires |u| == 2 && Okay(u[0], o, c) && Okay(u[1], o, c) && u[0].highC + 1 < u[1].lowC
    requires Common(o, c, 0, 0, u[0].lowO - 1, u[0].lowC - 1) && Common(o, c, u[0].highO, u[0].highC, u[1].lowO - 1, u[1].lowC - 1)
    requires Common(o, c, u[1].highO, u[1].highC, |o|, |c|)
    ensures IsThread(u, o, c)
  {
    hide Okay, Common;
    var rest := [u[1]];
    assert rest[1..] == [];
    assert Segment(rest, o, c, u[0].highO, u[0].highC, |o|, |c|);
    assert u[1..] == rest;
  }

  /**
   Threads all of whose blocks change something, and that yet make a block of type DIFF_3RD in which
   OLDFILE does not differ.  They are not threads that the differ finds: the three files are the same.
   */
  lemma OlderNeedNotDiffer() returns (thread0: seq<DiffBlock>, thread1: seq<DiffBlock>, f: seq<File>)
    ensures |f| == 3 && IsThread(thread0, f[0], f[FILEC]) && IsThread(thread1, f[1], f[FILEC])
    ensures forall i :: 0 <= i < |thread0| ==> thread0[i].linesO != thread0[i].linesC
    ensures forall i :: 0 <= i < |thread1| ==> thread1[i].linesO != thread1[i].linesC
    ensures forall bs: seq<Diff3Block>, used: seq<seq<seq<DiffBlock>>> :: WovenOf(bs, used, thread0, thread1, f) ==>
              |bs| == 1 && bs[0].kind == DIFF_3RD && InRange(bs[0], f) && !Telling(bs[0], f)
  {
    var x: Line := "x\n";
    var two := [x, x];
    f := [two, two, two];
    thread0 := [DiffBlock(1, 1, 1, 0, [x], []), DiffBlock(3, 2, 2, 2, [], [x])];
    thread1 := [DiffBlock(1, 0, 1, 1, [], [x]), DiffBlock(2, 2, 3, 2, [x], [])];
    TwoBlocks(thread0, two, two);
    TwoBlocks(thread1, two, two);
    forall bs: seq<Diff3Block>, used: seq<seq<seq<DiffBlock>>> | WovenOf(bs, used, thread0, thread1, f)
      ensures |bs| == 1 && bs[0].kind == DIFF_3RD && InRange(bs[0], f) && !Telling(bs[0], f)
    {
      OnlyRound(bs, used, thread0, thread1, f, two);
    }
  }

  /** Over two common lines, one of them in a block of either thread, there is only one round. */
  lemma OnlyRound(bs: seq<Diff3Block>, used: seq<seq<seq<DiffBlock>>>, thread0: seq<DiffBlock>, thread1: seq<DiffBlock>, f: seq<File>, two: File)
    requires WovenOf(bs, used, thread0, thread1, f) && f == [two, two, two] && |two| == 2
    requires |thread0| == 2 && thread0[1].lowC == 2 == thread0[1].highC
    requires |thread1| == 2 && thread1[0].lowC == 1 == thread1[0].highC
    ensures |bs| == 1 && bs[0].kind == DIFF_3RD && InRange(bs[0], f) && !Telling(bs[0], f)
  {
    hide Segment, Segment3, MadeOf, Chain, Apart3, Slice, Okay3, RightKind, Telling;
    assert Made(bs, used);
    MadeTwo(bs, used);
    assert Chain(used, 0) == thread0 && Chain(used, 1) == thread1;
    var i, m := InChain(used, 1, 0);
    var j, n := InChain(used, 0, 1);
    hide Made, IsDiff3, IsThread;
    AllRounds(bs, used, thread0, thread1, f);
    assert bs[i].low[FILEC] <= used[i][1][m].lowC && used[i][1][m].highC <= bs[i].high[FILEC];
    assert bs[j].low[FILEC] <= used[j][0][n].lowC && used[j][0][n].highC <= bs[j].high[FILEC];
    assert 1 <= bs[0].low[FILEC] <= bs[0].high[FILEC] + 1;
    assert bs[|bs| - 1].low[FILEC] <= bs[|bs| - 1].high[FILEC] + 1 <= 3;
    SuperfluousBlocks(bs, used, thread0, thread1, f, 0, 0);
    SuperfluousBlocks(bs, used, thread0, thread1, f, 0, 1);
    NothingElse(used, two);
    KindOf(bs[0], used[0], f);
    EqualSlices(bs[0], f);
  }

  lemma {:induction false} InChain(used: seq<seq<seq<DiffBlock>>>, d: nat, k: nat) returns (i: nat, m: nat)
    requires d < 2 && (forall j :: 0 <= j < |used| ==> |used[j]| == 2) && k < |Chain(used, d)|
    ensures i < |used| && m < |used[i][d]| && Chain(used, d)[k] == used[i][d][m]
    decreases |used|
  {
    var front, last := used[..|used| - 1], |used| - 1;
    if k < |Chain(front, d)| {
      i, m := InChain(front, d, k);
    } else {
      i, m := last, k - |Chain(front, d)|;
    }
  }

  /** Where the blocks of all rounds lie. */
  lemma AllRounds(bs: seq<Diff3Block>, used: seq<seq<seq<DiffBlock>>>, thread0: seq<DiffBlock>, thread1: seq<DiffBlock>, f: seq<File>)
    requires WovenOf(bs, used, thread0, thread1, f)
    ensures |f| == 3 && |used| == |bs|
    ensures forall i :: 0 <= i < |bs| ==> |used[i]| == 2 && |bs[i].low| == 3 && |bs[i].high| == 3
                                          && 1 <= bs[i].low[FILEC] <= bs[i].high[FILEC] + 1 <= |f[FILEC]| + 1
    ensures forall i, d, m :: 0 <= i < |bs| && 0 <= d < 2 && 0 <= m < |used[i][d]| ==>
              bs[i].low[FILEC] <= used[i][d][m].lowC && used[i][d][m].highC <= bs[i].high[FILEC]
    ensures forall i, j :: 0 <= i < j < |bs| ==> bs[i].high[FILEC] + 1 < bs[j].low[FILEC]
  {
    hide WovenOf, Apart3;
    forall i | 0 <= i < |bs|
      ensures |used| == |bs| && |used[i]| == 2 && |f| == 3 && |bs[i].low| == 3 && |bs[i].high| == 3
      ensures 1 <= bs[i].low[2] <= bs[i].high[2] + 1 <= |f[2]| + 1
      ensures forall d, m :: 0 <= d < 2 && 0 <= m < |used[i][d]| ==>
                bs[i].low[2] <= used[i][d][m].lowC && used[i][d][m].highC <= bs[i].high[2]
    {
      OneRound(bs, used, thread0, thread1, f, i);
    }
    RoundsShape(bs, used, thread0, thread1, f);
    forall i, j | 0 <= i < j < |bs|
      ensures bs[i].high[2] + 1 < bs[j].low[2]
    {
      LaterRound(bs, i, j);
    }
  }

  lemma OneRound(bs: seq<Diff3Block>, used: seq<seq<seq<DiffBlock>>>, thread0: seq<DiffBlock>, thread1: seq<DiffBlock>, f: seq<File>, i: nat)
    requires WovenOf(bs, used, thread0, thread1, f) && i < |bs|
    ensures |used| == |bs| && |used[i]| == 2 && |f| == 3 && |bs[i].low| == 3 && |bs[i].high| == 3
    ensures 1 <= bs[i].low[2] <= bs[i].high[2] + 1 <= |f[2]| + 1
    ensures forall d, m :: 0 <= d < 2 && 0 <= m < |used[i][d]| ==>
              bs[i].low[2] <= used[i][d][m].lowC && used[i][d][m].highC <= bs[i].high[2]
  {
    SuperfluousBlocks(bs, used, thread0, thread1, f, i, 0);
    hide WovenOf, IsThread, Without, Slice, RightKind, Covered, Growth;
    BlockLies(bs[i], used[i], f);
  }

  lemma RoundsShape(bs: seq<Diff3Block>, used: seq<seq<seq<DiffBlock>>>, thread0: seq<DiffBlock>, thread1: seq<DiffBlock>, f: seq<File>)
    requires WovenOf(bs, used, thread0, thread1, f)
    ensures |f| == 3 && |used| == |bs| && Apart3(bs)
  {
    hide Segment3, Apart3, Chain, MadeOf, IsThread;
  }

  lemma {:induction false} LaterRound(bs: seq<Diff3Block>, i: nat, j: nat)
    requires Apart3(bs) && i < j < |bs|
    requires forall k :: 0 <= k < |bs| ==> |bs[k].low| == 3 && |bs[k].high| == 3 && bs[k].low[2] <= bs[k].high[2] + 1
    ensures bs[i].high[2] + 1 < bs[j].low[2]
    decreases j
  {
    assert Below(bs[j - 1], bs[j]);
    if i + 1 < j {
      LaterRound(bs, i, j - 1);
    }
  }

  lemma NothingElse(used: seq<seq<seq<DiffBlock>>>, two: File)
    requires |used| == 1 && |used[0]| == 2
    ensures Without(used, 0, 0) == [] && Without(used, 0, 1) == [] && IsThread([], two, two)
  {
    assert used[..0] == [] && used[1..] == [];
  }

  lemma EqualSlices(b: Diff3Block, f: seq<File>)
    requires InRange(b, f) && RightKind(b, f) && !b.kind.DIFF_1ST? && !b.kind.DIFF_2ND?
    requires Slice(b, f, 0) == Slice(b, f, FILEC) && Slice(b, f, 1) == Slice(b, f, FILEC)
    ensures b.kind == DIFF_3RD && !Telling(b, f)
  {
  }
}
