/**
 Laws of the three-way merge: what comes out when only one side changed, or both alike.
 */
module Diff3Laws {
  import opened Wrappers
  import opened Text
  import opened Diff3Blocks
  import opened Diff3Merge
  import opened Make3Way

  // ----- Laws of the merged text

  /** The block leaves MYFILE's lines. */
  ghost predicate KeepsMine(b: Diff3Block, f: seq<File>, o: Options) {
    Skipped(b, o) || (!Conflicting(b, o) && InRange(b, f) && Yours(b, f) == Mine(b, f))
  }

  /** The block leaves YOURFILE's lines. */
  ghost predicate KeepsYours(b: Diff3Block, f: seq<File>, o: Options) {
    (!Skipped(b, o) && !Conflicting(b, o)) || (Skipped(b, o) && InRange(b, f) && Yours(b, f) == Mine(b, f))
  }

  ghost predicate AllKeepMine(bs: seq<Diff3Block>, f: seq<File>, o: Options) {
    forall i :: 0 <= i < |bs| ==> KeepsMine(bs[i], f, o)
  }

  ghost predicate AllKeepYours(bs: seq<Diff3Block>, f: seq<File>, o: Options) {
    forall i :: 0 <= i < |bs| ==> KeepsYours(bs[i], f, o)
  }

  lemma TailKeeps(bs: seq<Diff3Block>, f: seq<File>, o: Options)
    requires bs != []
    ensures AllKeepMine(bs, f, o) ==> KeepsMine(bs[0], f, o) && AllKeepMine(bs[1..], f, o)
    ensures AllKeepYours(bs, f, o) ==> KeepsYours(bs[0], f, o) && AllKeepYours(bs[1..], f, o)
  {
    hide KeepsMine, KeepsYours;
  }

  /** One step of the merge, without the cases that a proper diff rules out. */
  lemma Unroll(bs: seq<Diff3Block>, f: seq<File>, o: Options, p: seq<int>, pos: int)
    requires Rest(bs, f, p) && bs != [] && 0 <= pos <= p[0]
    ensures InRange(bs[0], f) && Rest(bs[1..], f, bs[0].high)
    ensures 0 <= pos <= p[0] <= bs[0].low[0] - 1 <= bs[0].high[0] <= |f[0]|
    ensures 0 <= p[1] <= bs[0].low[1] - 1 <= bs[0].high[1] <= |f[1]|
    ensures Merged(bs, f, o, pos) ==
            if Skipped(bs[0], o) then Merged(bs[1..], f, o, pos)
            else Flat(f[0][pos..bs[0].low[0] - 1]) + BlockText(bs[0], f, o) + Merged(bs[1..], f, o, bs[0].high[0])
  {
    hide Flat, BlockText, Skipped, Slice, Pointers, RightKind, Rest;
    RestNext(bs, f, p);
  }

  lemma {:induction false} MergedIsMine(bs: seq<Diff3Block>, f: seq<File>, o: Options, p: seq<int>, pos: int)
    requires Rest(bs, f, p) && 0 <= pos <= p[0] <= |f[0]|
    requires AllKeepMine(bs, f, o)
    ensures Merged(bs, f, o, pos) == Flat(f[0][pos..])
    decreases |bs|
  {
    if bs != [] {
      var b := bs[0];
      hide *;
      Unroll(bs, f, o, p, pos);
      TailKeeps(bs, f, o);
      MineText(b, f, o);
      if Skipped(b, o) {
        MergedIsMine(bs[1..], f, o, b.high, pos);
      } else {
        MergedIsMine(bs[1..], f, o, b.high, b.high[0]);
        JoinThree(f[0], pos, b.low[0] - 1, b.high[0]);
      }
    }
  }

  lemma MineText(b: Diff3Block, f: seq<File>, o: Options)
    requires InRange(b, f) && KeepsMine(b, f, o)
    ensures !Skipped(b, o) ==> BlockText(b, f, o) == Flat(f[0][b.low[0] - 1..b.high[0]])
  {
    hide Skipped, Conflicting, Flat, Yours;
  }

  lemma JoinThree(file: File, a: int, b: int, c: int)
    requires 0 <= a <= b <= c <= |file|
    ensures Flat(file[a..b]) + Flat(file[b..c]) + Flat(file[c..]) == Flat(file[a..])
  {
    hide Flat;
    FlatJoin(file[a..b], file[b..c]);
    assert file[a..b] + file[b..c] == file[a..c];
    FlatJoin(file[a..c], file[c..]);
    assert file[a..c] + file[c..] == file[a..];
  }

  /** The same, when MYFILE is already past the lines up to the end of the last block. */
  lemma {:induction false} MergedIsYours(bs: seq<Diff3Block>, f: seq<File>, o: Options, p: seq<int>)
    requires Rest(bs, f, p)
    requires AllKeepYours(bs, f, o)
    ensures 0 <= p[0] <= |f[0]| && 0 <= p[1] <= |f[1]|
    ensures Merged(bs, f, o, p[0]) == Flat(f[1][p[1]..])
    decreases |bs|
  {
    assert |p| == 3;
    hide *;
    if bs == [] {
      NoBlocks(f, o, p);
    } else {
      BlockSides(bs, f, p);
      TailKeeps(bs, f, o);
      RestIsNext(bs, f, p);
      MergedIsYours(bs[1..], f, o, bs[0].high);
      YoursBlock(bs, f, o, p);
    }
  }

  lemma YoursBlock(bs: seq<Diff3Block>, f: seq<File>, o: Options, p: seq<int>)
    requires Rest(bs, f, p) && bs != [] && KeepsYours(bs[0], f, o) && InRange(bs[0], f)
    requires 0 <= p[0] <= bs[0].low[0] - 1 && 0 <= p[1] <= bs[0].low[1] - 1
    requires f[0][p[0]..bs[0].low[0] - 1] == f[1][p[1]..bs[0].low[1] - 1]
    requires Merged(bs[1..], f, o, bs[0].high[0]) == Flat(f[1][bs[0].high[1]..])
    ensures Merged(bs, f, o, p[0]) == Flat(f[1][p[1]..])
  {
    hide *;
    RestShape(bs, f, p);
    RestNext(bs, f, p);
    var b := bs[0];
    MergedStep(bs, f, o, p);
    YoursText(b, f, o, p);
    JoinTexts(f[1], p[1], b.high[1], Merged(bs[1..], f, o, b.high[0]));
  }

  lemma JoinTexts(file: File, a: int, b: int, rest: string)
    requires 0 <= a <= b <= |file| && rest == Flat(file[b..])
    ensures Flat(file[a..b]) + rest == Flat(file[a..])
  {
    hide Flat;
    FlatRest(file, a, b);
  }

  /** Up to the end of the block, the merge has YOURFILE's lines. */
  lemma YoursText(b: Diff3Block, f: seq<File>, o: Options, p: seq<int>)
    requires InRange(b, f) && |p| == 3 && KeepsYours(b, f, o)
    requires 0 <= p[0] <= b.low[0] - 1 && 0 <= p[1] <= b.low[1] - 1
    requires f[0][p[0]..b.low[0] - 1] == f[1][p[1]..b.low[1] - 1]
    ensures b.high[1] <= |f[1]| && b.low[1] - 1 <= b.high[1]
    ensures (if Skipped(b, o) then Flat(f[0][p[0]..b.high[0]]) else Flat(f[0][p[0]..b.low[0] - 1]) + BlockText(b, f, o))
            == Flat(f[1][p[1]..b.high[1]])
  {
    hide Flat, TypeOf, Skipped, Conflicting;
    JoinTwo(f[0], p[0], b.low[0] - 1, b.high[0]);
    JoinTwo(f[1], p[1], b.low[1] - 1, b.high[1]);
  }

  lemma FlatRest(file: File, a: int, b: int)
    requires 0 <= a <= b <= |file|
    ensures Flat(file[a..b]) + Flat(file[b..]) == Flat(file[a..])
  {
    FlatJoin(file[a..b], file[b..]);
    assert file[a..b] + file[b..] == file[a..];
  }

  lemma NoBlocks(f: seq<File>, o: Options, p: seq<int>)
    requires Rest([], f, p)
    ensures 0 <= p[0] <= |f[0]| && 0 <= p[1] <= |f[1]|
    ensures Merged([], f, o, p[0]) == Flat(f[1][p[1]..])
  {
    AgreeSides(f, p, Lengths(f));
    assert f[0][p[0]..] == f[0][p[0]..|f[0]|] && f[1][p[1]..] == f[1][p[1]..|f[1]|];
  }

  lemma JoinTwo(file: File, a: int, b: int, c: int)
    requires 0 <= a <= b <= c <= |file|
    ensures Flat(file[a..b]) + Flat(file[b..c]) == Flat(file[a..c])
  {
    FlatJoin(file[a..b], file[b..c]);
    assert file[a..b] + file[b..c] == file[a..c];
  }

  lemma BlockSides(bs: seq<Diff3Block>, f: seq<File>, p: seq<int>)
    requires Rest(bs, f, p) && bs != []
    ensures InRange(bs[0], f) && 0 <= p[0] && 0 <= p[1]
    ensures p[0] <= bs[0].low[0] - 1 && p[1] <= bs[0].low[1] - 1
    ensures f[0][p[0]..bs[0].low[0] - 1] == f[1][p[1]..bs[0].low[1] - 1]
  {
    hide Slice, Pointers, RightKind, Rest;
    RestNext(bs, f, p);
    AgreeSides(f, p, Before(bs[0]));
  }

  lemma AgreeSides(f: seq<File>, p: seq<int>, p': seq<int>)
    requires Agree(f, p, p')
    ensures 0 <= p[0] <= p'[0] <= |f[0]| && 0 <= p[1] <= p'[1] <= |f[1]| && f[0][p[0]..p'[0]] == f[1][p[1]..p'[1]]
  {
  }

  lemma NothingMerged(f: seq<File>, o: Options, pos: int, mid: int)
    requires |f| == 3 && 0 <= pos <= mid <= |f[0]|
    ensures Merged([], f, o, pos) == Flat(f[0][pos..mid]) + Merged([], f, o, mid)
  {
    JoinTwo(f[0], pos, mid, |f[0]|);
    assert f[0][pos..] == f[0][pos..|f[0]|] && f[0][mid..] == f[0][mid..|f[0]|];
  }

  /** Starting earlier only adds the lines in between. */
  lemma {:induction false} MergedEarlier(bs: seq<Diff3Block>, f: seq<File>, o: Options, p: seq<int>, pos: int, mid: int)
    requires Rest(bs, f, p) && 0 <= pos <= mid <= p[0] <= |f[0]|
    ensures Merged(bs, f, o, pos) == Flat(f[0][pos..mid]) + Merged(bs, f, o, mid)
    decreases |bs|
  {
    hide Rest, Flat, Skipped, BlockText, Merged;
    RestShape(bs, f, p);
    if bs == [] {
      NothingMerged(f, o, pos, mid);
    } else {
      var b := bs[0];
      Unroll(bs, f, o, p, pos);
      Unroll(bs, f, o, p, mid);
      if Skipped(b, o) {
        MergedEarlier(bs[1..], f, o, b.high, pos, mid);
      } else {
        JoinTwo(f[0], pos, mid, b.low[0] - 1);
        Regroup(Flat(f[0][pos..mid]), Flat(f[0][mid..b.low[0] - 1]), BlockText(b, f, o), Merged(bs[1..], f, o, b.high[0]));
      }
    }
  }

  lemma Regroup(a: string, b: string, c: string, d: string)
    ensures (a + b) + c + d == a + (b + c + d)
  {
  }

  /** One block of the merge, with MYFILE's lines before it. */
  lemma MergedStep(bs: seq<Diff3Block>, f: seq<File>, o: Options, p: seq<int>)
    requires Rest(bs, f, p) && bs != [] && InRange(bs[0], f)
    ensures 0 <= p[0] <= bs[0].low[0] - 1
    ensures Merged(bs, f, o, p[0])
            == (if Skipped(bs[0], o) then Flat(f[0][p[0]..bs[0].high[0]])
                else Flat(f[0][p[0]..bs[0].low[0] - 1]) + BlockText(bs[0], f, o))
               + Merged(bs[1..], f, o, bs[0].high[0])
  {
    assert |p| == 3;
    hide *;
    Unroll(bs, f, o, p, p[0]);
    if Skipped(bs[0], o) {
      MergedEarlier(bs[1..], f, o, bs[0].high, p[0], bs[0].high[0]);
    }
  }

  // ----- Both files changed alike

  /** The blocks are apart and what they are made of lies within them. */
  ghost predicate Layered(bs: seq<Diff3Block>, used: seq<seq<seq<DiffBlock>>>) {
    && |used| == |bs|
    && (forall i :: 0 <= i < |bs| ==> MadeOf(bs[i], used[i]))
    && (forall i :: 0 <= i < |bs| ==> Sound(bs[i], used[i]))
    && Apart3(bs)
  }

  ghost predicate Sound(b: Diff3Block, using: seq<seq<DiffBlock>>) {
    && |using| == 2 && |b.low| == 3 && |b.high| == 3 && b.low[FILEC] <= b.high[FILEC] + 1
    && forall d, k :: 0 <= d < 2 && 0 <= k < |using[d]| ==> b.low[FILEC] <= using[d][k].lowC && using[d][k].highC <= b.high[FILEC]
  }

  lemma LayeredFront(bs: seq<Diff3Block>, used: seq<seq<seq<DiffBlock>>>)
    requires Layered(bs, used) && bs != []
    ensures Layered(bs[..|bs| - 1], used[..|used| - 1])
  {
    hide MadeOf, Sound;
    var front := bs[..|bs| - 1];
    forall i, j | 0 <= i < j < |front| && j == i + 1
      ensures Below(front[i], front[j])
    {
      assert front[i] == bs[i] && front[j] == bs[j];
    }
  }

  /** All blocks used so far end no later than the last three-way block. */
  lemma {:induction false} ChainEnds(bs: seq<Diff3Block>, used: seq<seq<seq<DiffBlock>>>, d: nat)
    requires Layered(bs, used) && d < 2 && bs != []
    ensures forall i :: 0 <= i < |used| ==> |used[i]| == 2
    ensures forall k :: 0 <= k < |Chain(used, d)| ==> Chain(used, d)[k].highC <= bs[|bs| - 1].high[FILEC]
    decreases |bs|
  {
    hide MadeOf;
    var n := |bs| - 1;
    assert forall i :: 0 <= i < |bs| ==> Sound(bs[i], used[i]);
    var front := used[..n];
    assert Chain(used, d) == Chain(front, d) + used[n][d];
    if n > 0 {
      LayeredFront(bs, used);
      ChainEnds(bs[..n], front, d);
      assert Below(bs[n - 1], bs[n]) && bs[..n][n - 1] == bs[n - 1];
    }
    forall k | 0 <= k < |Chain(used, d)|
      ensures Chain(used, d)[k].highC <= bs[n].high[FILEC]
    {
      if k < |Chain(front, d)| {
        assert Chain(used, d)[k] == Chain(front, d)[k];
      } else {
        assert Chain(used, d)[k] == used[n][d][k - |Chain(front, d)|];
      }
    }
  }

  /** If both threads are the same, the last round takes no more from one than from the other. */
  lemma NoMore(bs: seq<Diff3Block>, used: seq<seq<seq<DiffBlock>>>, t: seq<DiffBlock>, d: nat)
    requires Layered(bs, used) && d < 2 && bs != []
    requires forall i :: 0 <= i < |used| ==> |used[i]| == 2
    requires Chain(used, d) == t && Chain(used, 1 - d) == t
    requires forall k :: 0 <= k < |t| ==> t[k].lowC <= t[k].highC + 1
    ensures |used[|bs| - 1][1 - d]| <= |used[|bs| - 1][d]|
  {
    hide MadeOf, Sound, Layered;
    var n := |bs| - 1;
    assert |used| == |bs| by {
      LayeredSize(bs, used);
    }
    var mine, other := Chain(used[..n], d), Chain(used[..n], 1 - d);
    assert t == mine + used[n][d] && t == other + used[n][1 - d];
    LastRound(bs, used, 1 - d);
    if mine != [] {
      var k := |mine| - 1;
      EarlierRounds(bs, used, d, n, k);
      assert t[k] == mine[k] && t[k].lowC < bs[n].low[FILEC];
      assert t[k] !in used[n][1 - d];
      FirstOrSecond(other, used[n][1 - d], k);
    }
  }

  lemma FirstOrSecond<T>(a: seq<T>, b: seq<T>, k: nat)
    requires k < |a + b|
    ensures k < |a| || (a + b)[k] in b
  {
    if |a| <= k {
      assert (a + b)[k] == b[k - |a|];
    }
  }

  lemma EarlierRounds(bs: seq<Diff3Block>, used: seq<seq<seq<DiffBlock>>>, d: nat, n: nat, k: nat)
    requires Layered(bs, used) && d < 2 && n + 1 == |bs|
    requires forall i :: 0 <= i < |used| ==> |used[i]| == 2
    requires k < |Chain(used[..n], d)|
    ensures |bs[n].low| == 3 && Chain(used[..n], d)[k].highC + 1 < bs[n].low[FILEC]
  {
    hide MadeOf, Sound;
    if n > 0 {
      LayeredFront(bs, used);
      ChainEnds(bs[..n], used[..n], d);
      assert Below(bs[n - 1], bs[n]) && bs[..n][n - 1] == bs[n - 1];
    }
  }

  lemma LastRound(bs: seq<Diff3Block>, used: seq<seq<seq<DiffBlock>>>, d: nat)
    requires Layered(bs, used) && d < 2 && bs != []
    requires forall i :: 0 <= i < |used| ==> |used[i]| == 2
    ensures var u := used[|bs| - 1][d];
            forall b :: b in u ==> |bs[|bs| - 1].low| == 3 && bs[|bs| - 1].low[FILEC] <= b.lowC
  {
    hide MadeOf;
    assert Sound(bs[|bs| - 1], used[|bs| - 1]);
  }

  lemma {:induction false} EqualRounds(bs: seq<Diff3Block>, used: seq<seq<seq<DiffBlock>>>, t: seq<DiffBlock>)
    requires Layered(bs, used)
    requires forall i :: 0 <= i < |used| ==> |used[i]| == 2
    requires Chain(used, 0) == t && Chain(used, 1) == t
    requires forall k :: 0 <= k < |t| ==> t[k].lowC <= t[k].highC + 1
    ensures forall i :: 0 <= i < |bs| ==> used[i][0] == used[i][1]
    decreases |bs|
  {
    hide MadeOf, Sound, Layered, Chain;
    LayeredSize(bs, used);
    if bs != [] {
      var n := |bs| - 1;
      var front, t' := used[..n], Chain(used[..n], 0);
      NoMore(bs, used, t, 0);
      NoMore(bs, used, t, 1);
      LayeredFront(bs, used);
      ChainLast(used, 0);
      ChainLast(used, 1);
      SameSplit(t', used[n][0], Chain(front, 1), used[n][1]);
      assert forall k :: 0 <= k < |t'| ==> t'[k] == t[k];
      EqualRounds(bs[..n], front, t');
      forall i | 0 <= i < |bs|
        ensures used[i][0] == used[i][1]
      {
        if i < n {
          assert front[i] == used[i];
        }
      }
    }
  }

  lemma LayeredSize(bs: seq<Diff3Block>, used: seq<seq<seq<DiffBlock>>>)
    requires Layered(bs, used)
    ensures |used| == |bs|
  {
  }

  lemma SameSplit<T>(a: seq<T>, b: seq<T>, c: seq<T>, d: seq<T>)
    requires a + b == c + d && |b| == |d|
    ensures a == c && b == d
  {
    assert a == (a + b)[..|a|] && c == (c + d)[..|a|];
    assert b == (a + b)[|a|..] && d == (c + d)[|a|..];
  }

  /** Files that changed alike stay in step: no block is of a type that tells them apart. */
  lemma {:induction false} StayInStep(bs: seq<Diff3Block>, used: seq<seq<seq<DiffBlock>>>, f: seq<File>, p: seq<int>)
    requires Rest(bs, f, p) && |used| == |bs| && p[0] == p[1] && f[0] == f[1]
    requires forall i :: 0 <= i < |bs| ==> MadeOf(bs[i], used[i]) && used[i][0] == used[i][1]
    ensures forall i :: 0 <= i < |bs| ==> bs[i].kind == DIFF_3RD && InRange(bs[i], f) && Yours(bs[i], f) == Mine(bs[i], f)
    decreases |bs|
  {
    if bs != [] {
      var b := bs[0];
      RestNext(bs, f, p);
      InStep(b, used[0], f, p);
      hide Rest, MadeOf, RightKind, Agree, Okay3;
      StayInStep(bs[1..], used[1..], f, b.high);
      forall i | 0 <= i < |bs|
        ensures bs[i].kind == DIFF_3RD && InRange(bs[i], f) && Yours(bs[i], f) == Mine(bs[i], f)
      {
        if i > 0 {
          assert bs[i] == bs[1..][i - 1];
        }
      }
    }
  }

  lemma InStep(b: Diff3Block, using: seq<seq<DiffBlock>>, f: seq<File>, p: seq<int>)
    requires Okay3(b, f) && Agree(f, p, Before(b)) && MadeOf(b, using) && using[0] == using[1]
    requires f[0] == f[1] && p[0] == p[1]
    ensures b.high[0] == b.high[1] && b.kind == DIFF_3RD && InRange(b, f) && Yours(b, f) == Mine(b, f)
  {
    assert b.low[0] == b.low[1] && b.Num(0) == b.Num(1);
    hide Covered, Growth;
  }

  /** A thread and the common file determine the other file. */
  lemma {:induction false} ThreadGivesFile(u: seq<DiffBlock>, a: File, b: File, c: File, p: int, q: int)
    requires Segment(u, a, c, p, q, |a|, |c|) && Segment(u, b, c, p, q, |b|, |c|)
    ensures 0 <= p <= |a| && p <= |b| && a[p..] == b[p..]
    decreases |u|
  {
    if u == [] {
      assert a[p..] == a[p..|a|] && b[p..] == b[p..|b|];
    } else {
      ThreadGivesFile(u[1..], a, b, c, u[0].highO, u[0].highC);
      var m, n := u[0].lowO - 1, u[0].highO;
      assert a[p..] == a[p..m] + a[m..n] + a[n..] && b[p..] == b[p..m] + b[m..n] + b[n..];
    }
  }

  // ----- Both steps together

  /** Which laws the blocks obey, given what the threads are. */
  lemma OnlyMineChanged(bs: seq<Diff3Block>, used: seq<seq<seq<DiffBlock>>>, thread0: seq<DiffBlock>, f: seq<File>, o: Options)
    requires IsDiff3(bs, f) && Woven(bs, used, [[], []], thread0, [])
    ensures Merged(bs, f, o, 0) == Flat(f[0]) && !HasConflict(bs, o)
  {
    hide Segment3, Apart3, Rest;
    Merger.RestStart(bs, f);
    forall i | 0 <= i < |bs|
      ensures KeepsMine(bs[i], f, o) && !Conflicting(bs[i], o)
    {
      AllOfChain(bs, used, 1, i);
      FirstKind(bs[i], used[i]);
    }
    MergedIsMine(bs, f, o, [0, 0, 0], 0);
    assert f[0][0..] == f[0];
  }

  lemma OnlyYoursChanged(bs: seq<Diff3Block>, used: seq<seq<seq<DiffBlock>>>, thread1: seq<DiffBlock>, f: seq<File>, o: Options)
    requires IsDiff3(bs, f) && Woven(bs, used, [[], []], [], thread1) && !o.overlapOnly
    ensures Merged(bs, f, o, 0) == Flat(f[1]) && !HasConflict(bs, o)
  {
    hide Segment3, Apart3, Rest;
    Merger.RestStart(bs, f);
    forall i | 0 <= i < |bs|
      ensures KeepsYours(bs[i], f, o) && !Conflicting(bs[i], o)
    {
      AllOfChain(bs, used, 0, i);
      assert MadeOf(bs[i], used[i]);
    }
    MergedIsYours(bs, f, o, [0, 0, 0]);
    assert f[1][0..] == f[1];
  }

  /** Neither overlapping changes nor others are taken over. */
  ghost predicate NothingTaken(bs: seq<Diff3Block>, o: Options) {
    o.overlapOnly && (o.simpleOnly || forall i :: 0 <= i < |bs| ==> bs[i].kind != DIFF_ALL)
  }

  /** If only overlapping changes are taken and there are none, or these are left out too, MYFILE stays as it is. */
  lemma NothingTakenOver(bs: seq<Diff3Block>, f: seq<File>, o: Options)
    requires IsDiff3(bs, f) && NothingTaken(bs, o)
    ensures |f| == 3 && Merged(bs, f, o, 0) == Flat(f[0]) && !HasConflict(bs, o)
  {
    Merger.RestStart(bs, f);
    RestShape(bs, f, [0, 0, 0]);
    AllOkay(bs, f, [0, 0, 0]);
    hide Segment3, Apart3, Rest, Okay3;
    forall i | 0 <= i < |bs|
      ensures KeepsMine(bs[i], f, o) && !Conflicting(bs[i], o)
    {
      SameSides(bs[i], f);
    }
    MergedIsMine(bs, f, o, [0, 0, 0], 0);
    assert f[0][0..] == f[0];
  }

  lemma OkayInRange(b: Diff3Block, f: seq<File>)
    requires Okay3(b, f)
    ensures InRange(b, f)
  {
  }

  lemma SameSides(b: Diff3Block, f: seq<File>)
    requires Okay3(b, f)
    ensures InRange(b, f) && (b.kind.DIFF_3RD? ==> Yours(b, f) == Mine(b, f))
  {
    hide Pointers;
  }

  lemma {:induction false} AllOkay(bs: seq<Diff3Block>, f: seq<File>, p: seq<int>)
    requires Rest(bs, f, p)
    ensures forall i :: 0 <= i < |bs| ==> Okay3(bs[i], f)
    decreases |bs|
  {
    hide Okay3;
    if bs != [] {
      RestIsNext(bs, f, p);
      AllOkay(bs[1..], f, bs[0].high);
      assert forall i :: 0 < i < |bs| ==> bs[i] == bs[1..][i - 1];
    }
  }

  lemma FirstKind(b: Diff3Block, using: seq<seq<DiffBlock>>)
    requires MadeOf(b, using) && using[1] == []
    ensures b.kind == DIFF_1ST
  {
  }

  /** A thread without blocks gives none to any round. */
  lemma {:induction false} NoneOfNone(used: seq<seq<seq<DiffBlock>>>, d: nat, i: nat)
    requires d < 2 && (forall i :: 0 <= i < |used| ==> |used[i]| == 2) && Chain(used, d) == [] && i < |used|
    ensures used[i][d] == []
    decreases |used|
  {
    if i < |used| - 1 {
      NoneOfNone(used[..|used| - 1], d, i);
    }
  }

  lemma AllOfChain(bs: seq<Diff3Block>, used: seq<seq<seq<DiffBlock>>>, d: nat, i: nat)
    requires d < 2 && i < |bs| && |used| == |bs| && (forall i :: 0 <= i < |bs| ==> MadeOf(bs[i], used[i]))
    requires (forall i :: 0 <= i < |used| ==> |used[i]| == 2) && Chain(used, d) + [] == []
    ensures |used[i]| == 2 && used[i][d] == [] && MadeOf(bs[i], used[i])
  {
    NoneOfNone(used, d, i);
  }

  lemma BothChangedAlike(bs: seq<Diff3Block>, used: seq<seq<seq<DiffBlock>>>, t: seq<DiffBlock>, f: seq<File>, o: Options)
    requires IsDiff3(bs, f) && Woven(bs, used, [[], []], t, t) && IsThread(t, f[0], f[FILEC]) && IsThread(t, f[1], f[FILEC])
    ensures f[0] == f[1]
    ensures Merged(bs, f, o, 0) == Flat(f[0]) && !HasConflict(bs, o)
  {
    ThreadGivesFile(t, f[0], f[1], f[FILEC], 0, 0);
    assert f[0][0..] == f[0] && f[1][0..] == f[1];
    SegmentBounds(t, f[0], f[FILEC], 0, 0, |f[0]|, |f[FILEC]|);
    assert Chain(used, 0) == Chain(used, 0) + [] == t && Chain(used, 1) == Chain(used, 1) + [] == t;
    Merger.RestStart(bs, f);
    AreLayered(bs, used, f, [0, 0, 0]);
    hide Segment3, Apart3, Rest, MadeOf, Segment, Apart, Layered, Merged, Chain, RightKind, Okay;
    EqualRounds(bs, used, t);
    StayInStep(bs, used, f, [0, 0, 0]);
    MergedIsMine(bs, f, o, [0, 0, 0], 0);
  }

  lemma {:induction false} AreLayered(bs: seq<Diff3Block>, used: seq<seq<seq<DiffBlock>>>, f: seq<File>, p: seq<int>)
    requires Rest(bs, f, p) && |used| == |bs| && (forall i :: 0 <= i < |bs| ==> MadeOf(bs[i], used[i]))
    ensures Layered(bs, used)
    decreases |bs|
  {
    if bs != [] {
      RestNext(bs, f, p);
      var b := bs[0];
      assert MadeOf(b, used[0]) && Okay3(b, f);
      assert Sound(b, used[0]) by {
        hide Covered, Growth, RightKind;
      }
      hide MadeOf, Sound, Rest, RightKind;
      AreLayered(bs[1..], used[1..], f, b.high);
      forall i | 0 <= i < |bs|
        ensures Sound(bs[i], used[i])
      {
        if i > 0 {
          assert bs[i] == bs[1..][i - 1] && used[i] == used[1..][i - 1];
        }
      }
    }
  }

  /**
   Merge two files that differ from a common one by these threads.  Neither internal
   error can come up; a change made in one file only, or in both alike, is taken over.
   */
  method MergeFiles(thread0: seq<DiffBlock>, thread1: seq<DiffBlock>, infile: seq<char>, o: Options, ghost f: seq<File>)
    returns (r: Option<Outcome>, output: string, ghost blocks: seq<Diff3Block>, ghost used: seq<seq<seq<DiffBlock>>>)
    requires AreText(f) && IsThread(thread0, f[0], f[FILEC]) && IsThread(thread1, f[1], f[FILEC])
    requires infile == Flat(f[0])
    ensures IsDiff3(blocks, f) && Woven(blocks, used, [[], []], thread0, thread1)
    ensures output == Merged(blocks, f, o, 0) && r == Some(Done(HasConflict(blocks, o)))
    ensures thread1 == [] ==> r == Some(Done(false)) && output == infile
    ensures thread0 == [] && !o.overlapOnly ==> r == Some(Done(false)) && output == Flat(f[1])
    ensures thread0 == thread1 ==> r == Some(Done(false)) && output == infile && output == Flat(f[1])
    ensures NothingTaken(blocks, o) ==> r == Some(Done(false)) && output == infile
  {
    hide NothingTaken, Segment, Segment3, Apart, Apart3, Merged, HasConflict, MadeOf, Chain, IsText, IsThread;
    output := "";
    var bs;
    bs, used := Make3WayDiff(thread0, thread1, f);
    if bs == None {
      return None, output, [], used;
    }
    blocks := bs.value;
    var merger := new Merger(infile);
    var outcome := merger.OutputDiff3Merge(bs.value, o, f);
    output := merger.output;
    if thread1 == [] {
      OnlyMineChanged(bs.value, used, thread0, f, o);
    }
    if thread0 == [] && !o.overlapOnly {
      OnlyYoursChanged(bs.value, used, thread1, f, o);
    }
    if thread0 == thread1 {
      BothChangedAlike(bs.value, used, thread0, f, o);
    }
    if NothingTaken(blocks, o) {
      NothingTakenOver(blocks, f, o);
    }
    return Some(outcome), output, blocks, used;
  }
}
