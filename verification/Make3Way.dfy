/**
 `make_3way_diff`: weave two threads over a common file into one three-way diff.

 Each round takes the block that comes first in the common file, and then block after
 block of either thread, as long as one overlaps or touches the lines taken so far.
 */
module Make3Way {
  import opened Wrappers
  import opened Text
  import opened Diff3Blocks
  import opened UsingToBlock

  /** The last line of the common file in the last of the blocks. */
  function HighWater(u: seq<DiffBlock>): int
    requires u != []
  {
    u[|u| - 1].highC
  }

  /** Blocks of a thread, in order and apart, none of which begins before line lowc. */
  ghost predicate Ordered(u: seq<DiffBlock>, lowc: int) {
    && Apart(u)
    && (forall i :: 0 <= i < |u| ==> u[i].lowC <= u[i].highC + 1)
    && (u != [] ==> lowc <= u[0].lowC)
  }

  /** What the blocks used so far have to do with the high water mark. */
  ghost predicate Ladder(start: seq<seq<DiffBlock>>, using: seq<seq<DiffBlock>>, current: seq<seq<DiffBlock>>,
                         lowc: int, high: int, thread: nat) {
    && |start| == 2 && |using| == 2 && |current| == 2 && thread < 2
    && Ordered(start[0], lowc) && Ordered(start[1], lowc)
    && using[0] + current[0] == start[0] && using[1] + current[1] == start[1]
    && lowc <= high + 1
    && using[thread] != [] && HighWater(using[thread]) == high
    && (using[1 - thread] != [] ==> HighWater(using[1 - thread]) <= high)
    && Covered(using, lowc, high)
  }

  /** The blocks leave no hole in the common file from line lowc to line high. */
  ghost predicate Covered(using: seq<seq<DiffBlock>>, lowc: int, high: int)
    requires |using| == 2
  {
    forall line :: lowc - 1 <= line < high ==> InSome(using, line)
  }

  ghost predicate InSome(using: seq<seq<DiffBlock>>, line: int)
    requires |using| == 2
  {
    Within(using[0], line) || Within(using[1], line)
  }

  lemma WithinLonger(u: seq<DiffBlock>, b: DiffBlock, line: int)
    ensures Within(u, line) ==> Within(u + [b], line)
    ensures b.lowC - 1 <= line < b.highC ==> Within(u + [b], line)
  {
    if Within(u, line) {
      var i :| 0 <= i < |u| && u[i].lowC - 1 <= line < u[i].highC;
      assert (u + [b])[i] == u[i];
    }
    assert (u + [b])[|u|] == b;
  }

  /** The next block of the thread that the high water mark is from begins beyond the line after the mark. */
  lemma OwnThreadBeyond(start: seq<seq<DiffBlock>>, using: seq<seq<DiffBlock>>, current: seq<seq<DiffBlock>>,
                        lowc: int, high: int, thread: nat)
    requires Ladder(start, using, current, lowc, high, thread)
    ensures current[thread] != [] ==> high + 1 < current[thread][0].lowC
  {
    hide Covered;
    NextIsApart(using[thread], current[thread]);
  }

  lemma NextIsApart(u: seq<DiffBlock>, v: seq<DiffBlock>)
    requires Apart(u + v) && u != []
    ensures v != [] ==> HighWater(u) + 1 < v[0].lowC
  {
    if v != [] {
      assert (u + v)[|u| - 1] == u[|u| - 1] && (u + v)[|u|] == v[0];
    }
  }

  lemma LadderShape(start: seq<seq<DiffBlock>>, using: seq<seq<DiffBlock>>, current: seq<seq<DiffBlock>>,
                    lowc: int, high: int, thread: nat)
    requires Ladder(start, using, current, lowc, high, thread)
    ensures |using| == 2 && |current| == 2 && thread < 2 && using[thread] != [] && HighWater(using[thread]) == high
  {
    hide Covered, Ordered;
  }

  /** Taking the other thread's next block, which begins no later than the line after the mark. */
  lemma NextRung(start: seq<seq<DiffBlock>>, using: seq<seq<DiffBlock>>, current: seq<seq<DiffBlock>>,
                 lowc: int, high: int, thread: nat)
    requires Ladder(start, using, current, lowc, high, thread)
    requires current[1 - thread] != [] && current[1 - thread][0].lowC <= high + 1
    ensures var o, b := 1 - thread, current[1 - thread][0];
            Ladder(start, using[o := using[o] + [b]], current[o := current[o][1..]], lowc,
                   if high < b.highC then b.highC else high, if high < b.highC then o else thread)
  {
    hide Ordered, Covered;
    var o, b := 1 - thread, current[1 - thread][0];
    assert current[o] == [b] + current[o][1..];
    assert (using[o] + [b]) + current[o][1..] == start[o];
    assert HighWater(using[o] + [b]) == b.highC;
    CoverMore(using, b, o, lowc, high);
  }

  lemma CoverMore(using: seq<seq<DiffBlock>>, b: DiffBlock, o: nat, lowc: int, high: int)
    requires |using| == 2 && o < 2 && Covered(using, lowc, high) && b.lowC <= high + 1
    ensures Covered(using[o := using[o] + [b]], lowc, if high < b.highC then b.highC else high)
  {
    var using' := using[o := using[o] + [b]];
    forall line | lowc - 1 <= line < (if high < b.highC then b.highC else high)
      ensures InSome(using', line)
    {
      if line < high {
        assert InSome(using, line);
      }
      WithinLonger(using[o], b, line);
    }
  }

  /** The blocks of both threads that go into the next three-way block. */
  method TakeBlocks(start: seq<seq<DiffBlock>>)
    returns (using: seq<seq<DiffBlock>>, current: seq<seq<DiffBlock>>, low: nat, thread: nat)
    requires |start| == 2 && (start[0] != [] || start[1] != [])
    requires Ordered(start[0], 1) && Ordered(start[1], 1)
    ensures low < 2 && using != [] && |using| == 2 && using[low] != []
    ensures thread < 2 && using[thread] != []
    ensures Ladder(start, using, current, using[low][0].lowC, HighWater(using[thread]), thread)
    ensures forall d :: 0 <= d < 2 && current[d] != [] ==> HighWater(using[thread]) + 1 < current[d][0].lowC
  {
    hide *;
    low := Lower(start);
    thread := low;
    var first := start[low][0];
    var high := first.highC;
    using := [[], []][low := [first]];
    current := start[low := start[low][1..]];
    FirstRung(start, low);
    using, current, high, thread := ClimbAll(start, using, current, low, first.lowC, high);
    LadderShape(start, using, current, first.lowC, high, thread);
    OwnThreadBeyond(start, using, current, first.lowC, high, thread);
  }

  /** The thread whose next block comes first. */
  method Lower(start: seq<seq<DiffBlock>>) returns (low: nat)
    requires |start| == 2 && (start[0] != [] || start[1] != [])
    ensures low < 2 && start[low] != [] && (start[1 - low] != [] ==> start[low][0].lowC <= start[1 - low][0].lowC)
  {
    if start[0] == [] {
      low := 1;
    } else if start[1] == [] {
      low := 0;
    } else {
      low := if start[0][0].lowC > start[1][0].lowC then 1 else 0;
    }
  }

  /** Shuffle up the ladder for as long as the other thread's next block is in reach. */
  method ClimbAll(start: seq<seq<DiffBlock>>, using0: seq<seq<DiffBlock>>, current0: seq<seq<DiffBlock>>, low: nat, lowc: int, high0: int)
    returns (using: seq<seq<DiffBlock>>, current: seq<seq<DiffBlock>>, high: int, thread: nat)
    requires low < 2 && Ladder(start, using0, current0, lowc, high0, low)
    requires |using0| == 2 && using0[low] != []
    ensures Ladder(start, using, current, lowc, high, thread)
    ensures |using| == 2 && |current| == 2 && thread < 2 && using[low] != [] && using[low][0] == using0[low][0]
    ensures current[1 - thread] != [] ==> high + 1 < current[1 - thread][0].lowC
  {
    LadderShape(start, using0, current0, lowc, high0, low);
    hide Ladder, Ordered, HighWater;
    using, current, high, thread := using0, current0, high0, low;
    var other := 1 - thread;
    while current[other] != [] && current[other][0].lowC <= high + 1
      invariant |using| == 2 && |current| == 2 && thread < 2 && other == 1 - thread
      invariant Ladder(start, using, current, lowc, high, thread)
      invariant using[low] != [] && using[low][0] == using0[low][0]
      decreases |current[0]| + |current[1]|
    {
      using, current, high, thread := Climb(start, using, current, lowc, high, thread);
      other := 1 - thread;
    }
  }

  /** Incorporate the other thread's next block, and move the mark if it goes higher. */
  method Climb(start: seq<seq<DiffBlock>>, using0: seq<seq<DiffBlock>>, current0: seq<seq<DiffBlock>>, ghost lowc: int, high0: int, thread0: nat)
    returns (using: seq<seq<DiffBlock>>, current: seq<seq<DiffBlock>>, high: int, thread: nat)
    requires Ladder(start, using0, current0, lowc, high0, thread0)
    requires current0[1 - thread0] != [] && current0[1 - thread0][0].lowC <= high0 + 1
    ensures Ladder(start, using, current, lowc, high, thread)
    ensures |using| == 2 && |current| == 2 && thread < 2 && |current[0]| + |current[1]| < |current0[0]| + |current0[1]|
    ensures using0[0] <= using[0] && using0[1] <= using[1]
  {
    LadderShape(start, using0, current0, lowc, high0, thread0);
    NextRung(start, using0, current0, lowc, high0, thread0);
    hide Ladder, HighWater;
    var other := 1 - thread0;
    var b := current0[other][0];
    using := using0[other := using0[other] + [b]];
    current := current0[other := current0[other][1..]];
    thread, high := thread0, high0;
    if high < b.highC {
      thread := other;
      high := b.highC;
    }
  }

  lemma FirstRung(start: seq<seq<DiffBlock>>, low: nat)
    requires |start| == 2 && low < 2 && start[low] != []
    requires Ordered(start[0], 1) && Ordered(start[1], 1)
    requires start[1 - low] != [] ==> start[low][0].lowC <= start[1 - low][0].lowC
    ensures Ladder(start, [[], []][low := [start[low][0]]], start[low := start[low][1..]], start[low][0].lowC, start[low][0].highC, low)
  {
    hide Covered, Ordered;
    var b := start[low][0];
    assert [b] + start[low][1..] == start[low] && [] + start[1 - low] == start[1 - low];
    FirstCovers(b, low);
    StartsHere(start[0], start[low][0].lowC);
    StartsHere(start[1], start[low][0].lowC);
    assert b.lowC <= b.highC + 1 by {
      OrderedFirst(start[low]);
    }
  }

  lemma StartsHere(u: seq<DiffBlock>, lowc: int)
    requires Ordered(u, 1) && (u != [] ==> lowc <= u[0].lowC)
    ensures Ordered(u, lowc)
  {
    hide Apart;
  }

  lemma OrderedFirst(u: seq<DiffBlock>)
    requires Ordered(u, 1) && u != []
    ensures u[0].lowC <= u[0].highC + 1
  {
    hide Apart;
  }

  lemma FirstCovers(b: DiffBlock, low: nat)
    requires low < 2
    ensures Covered([[], []][low := [b]], b.lowC, b.highC)
  {
    var using := [[], []][low := [b]];
    forall line | b.lowC - 1 <= line < b.highC
      ensures InSome(using, line)
    {
      WithinLonger([], b, line);
      assert using[low] == [] + [b];
    }
  }

  // ----- The whole diff

  /** The rest of both threads still accounts for the rest of the files. */
  ghost predicate Remains(current: seq<seq<DiffBlock>>, f: seq<File>, last: seq<int>) {
    && |current| == 2 && |f| == 3 && |last| == 3
    && forall d :: 0 <= d < 2 ==>
         Segment(current[d], f[d], f[FILEC], last[d], last[FILEC], |f[d]|, |f[FILEC]|) && Apart(current[d])
  }

  /** At least one common line comes before the rest of either thread. */
  ghost predicate Beyond(current: seq<seq<DiffBlock>>, high: int)
    requires |current| == 2
  {
    forall d :: 0 <= d < 2 && current[d] != [] ==> high + 1 < current[d][0].lowC
  }

  lemma RemainsOrdered(current: seq<seq<DiffBlock>>, f: seq<File>, last: seq<int>)
    requires Remains(current, f, last)
    ensures Ordered(current[0], 1) && Ordered(current[1], 1) && 0 <= last[FILEC]
    ensures forall d :: 0 <= d < 2 && current[d] != [] ==> last[FILEC] < current[d][0].lowC
  {
    forall d | 0 <= d < 2
      ensures Ordered(current[d], 1) && 0 <= last[FILEC] && (current[d] != [] ==> last[FILEC] < current[d][0].lowC)
    {
      SegmentBounds(current[d], f[d], f[FILEC], last[d], last[FILEC], |f[d]|, |f[FILEC]|);
    }
  }

  /** What one thread gives to a block, and keeps. */
  lemma CutThread(u: seq<DiffBlock>, v: seq<DiffBlock>, o: File, c: File, p: int, q: int, lowc: int, high: int)
    requires Segment(u + v, o, c, p, q, |o|, |c|) && Apart(u + v)
    requires u != [] ==> lowc <= u[0].lowC && HighWater(u) <= high
    requires q < lowc <= high + 1 && high <= |c|
    requires v != [] ==> high < v[0].lowC
    ensures Segment(u, o, c, p, q, AfterLine(u, p, q, high), high)
    ensures Segment(v, o, c, AfterLine(u, p, q, high), high, |o|, |c|)
    ensures Inside(u, o, c, lowc - 1, high) && Apart(v)
  {
    CutSegment(u, v, o, c, p, q, |o|, |c|, high);
    SegmentBounds(u, o, c, p, q, AfterLine(u, p, q, high), high);
    StartsAt(u, v, o, c, p, q, lowc);
    ApartRest(u, v);
  }

  lemma ApartRest(u: seq<DiffBlock>, v: seq<DiffBlock>)
    requires Apart(u + v)
    ensures Apart(v)
  {
    forall i, j | 0 <= i < j < |v| && j == i + 1
      ensures v[i].highC + 1 < v[j].lowC
    {
      assert (u + v)[|u| + i] == v[i] && (u + v)[|u| + j] == v[j];
    }
  }

  lemma StartsAt(u: seq<DiffBlock>, v: seq<DiffBlock>, o: File, c: File, p: int, q: int, lowc: int)
    requires Segment(u + v, o, c, p, q, |o|, |c|)
    requires u != [] ==> lowc <= u[0].lowC
    ensures forall i :: 0 <= i < |u| ==> lowc <= u[i].lowC
  {
    if u != [] {
      assert (u + v)[0] == u[0];
      SegmentBounds((u + v)[1..], o, c, u[0].highO, u[0].highC, |o|, |c|);
      assert Okay(u[0], o, c);
      forall i | 0 <= i < |u|
        ensures lowc <= u[i].lowC
      {
        if i > 0 {
          assert u[i] == (u + v)[1..][i - 1];
        }
      }
    }
  }

  /** The blocks taken make a three-way block, and what is left remains. */
  lemma TakenFits(start: seq<seq<DiffBlock>>, using: seq<seq<DiffBlock>>, current: seq<seq<DiffBlock>>,
                  lowc: int, high: int, thread: nat, f: seq<File>, last: seq<int>)
    requires Remains(start, f, last) && Ladder(start, using, current, lowc, high, thread)
    requires last[FILEC] < lowc && Beyond(current, high) && StartAt(using, lowc)
    ensures |using| == 2
    ensures Usable(using, last, f, lowc, high)
    ensures |f| == 3 && |last| == 3
    ensures Remains(current, f, [HighMap(using[0], 0, last, high), HighMap(using[1], 1, last, high), high])
  {
    hide Segment, Covered, Inside, Apart, Ordered, Remains, Ladder, Beyond, StartAt, Usable, Within, AfterLine, HighMap;
    TakenInOrder(start, using, current, lowc, high, thread, f, last);
    HighInFile(start, using, current, lowc, high, thread, f, last);
    RemainsOrdered(start, f, last);
    CutThread(using[0], current[0], f[0], f[FILEC], last[0], last[FILEC], lowc, high);
    CutThread(using[1], current[1], f[1], f[FILEC], last[1], last[FILEC], lowc, high);
    CoveredIsWithin(using, lowc, high);
    Assemble(using, current, f, last, lowc, high);
  }

  /** What cutting the threads needs to know. */
  lemma TakenInOrder(start: seq<seq<DiffBlock>>, using: seq<seq<DiffBlock>>, current: seq<seq<DiffBlock>>,
                     lowc: int, high: int, thread: nat, f: seq<File>, last: seq<int>)
    requires Remains(start, f, last) && Ladder(start, using, current, lowc, high, thread) && Beyond(current, high) && StartAt(using, lowc)
    ensures |using| == 2 && |current| == 2 && |f| == 3 && |last| == 3 && lowc <= high + 1
    ensures Segment(using[0] + current[0], f[0], f[FILEC], last[0], last[FILEC], |f[0]|, |f[FILEC]|) && Apart(using[0] + current[0])
    ensures Segment(using[1] + current[1], f[1], f[FILEC], last[1], last[FILEC], |f[1]|, |f[FILEC]|) && Apart(using[1] + current[1])
    ensures forall d :: 0 <= d < 2 && using[d] != [] ==> lowc <= using[d][0].lowC && HighWater(using[d]) <= high
    ensures forall d :: 0 <= d < 2 && current[d] != [] ==> high < current[d][0].lowC
    ensures (using[0] != [] || using[1] != []) && Covered(using, lowc, high)
  {
    hide Segment, Covered, Inside, Apart, Ordered;
    forall d | 0 <= d < 2 && using[d] != []
      ensures lowc <= using[d][0].lowC && HighWater(using[d]) <= high
    {
      if d == thread {
      } else {
        assert d == 1 - thread;
      }
    }
  }

  lemma Assemble(using: seq<seq<DiffBlock>>, current: seq<seq<DiffBlock>>, f: seq<File>, last: seq<int>, lowc: int, high: int)
    requires |using| == 2 && |current| == 2 && |f| == 3 && |last| == 3 && 0 <= last[FILEC] < lowc <= high + 1
    requires using[0] != [] || using[1] != []
    requires forall line :: lowc - 1 <= line < high ==> Within(using[0], line) || Within(using[1], line)
    requires Segment(using[0], f[0], f[FILEC], last[0], last[FILEC], AfterLine(using[0], last[0], last[FILEC], high), high)
    requires Segment(using[1], f[1], f[FILEC], last[1], last[FILEC], AfterLine(using[1], last[1], last[FILEC], high), high)
    requires Segment(current[0], f[0], f[FILEC], AfterLine(using[0], last[0], last[FILEC], high), high, |f[0]|, |f[FILEC]|)
    requires Segment(current[1], f[1], f[FILEC], AfterLine(using[1], last[1], last[FILEC], high), high, |f[1]|, |f[FILEC]|)
    requires Inside(using[0], f[0], f[FILEC], lowc - 1, high) && Inside(using[1], f[1], f[FILEC], lowc - 1, high)
    requires Apart(current[0]) && Apart(current[1])
    ensures Usable(using, last, f, lowc, high)
    ensures Remains(current, f, [HighMap(using[0], 0, last, high), HighMap(using[1], 1, last, high), high])
  {
    hide Segment, Within, Inside, Apart;
    assert HighMap(using[0], 0, last, high) == AfterLine(using[0], last[0], last[FILEC], high);
    assert HighMap(using[1], 1, last, high) == AfterLine(using[1], last[1], last[FILEC], high);
  }

  /** No block used begins before line lowc. */
  ghost predicate StartAt(using: seq<seq<DiffBlock>>, lowc: int)
    requires |using| == 2
  {
    forall d :: 0 <= d < 2 && using[d] != [] ==> lowc <= using[d][0].lowC
  }

  lemma CoveredIsWithin(using: seq<seq<DiffBlock>>, lowc: int, high: int)
    requires |using| == 2 && Covered(using, lowc, high)
    ensures forall line :: lowc - 1 <= line < high ==> Within(using[0], line) || Within(using[1], line)
  {
    forall line | lowc - 1 <= line < high
      ensures Within(using[0], line) || Within(using[1], line)
    {
      assert InSome(using, line);
    }
  }

  lemma HighInFile(start: seq<seq<DiffBlock>>, using: seq<seq<DiffBlock>>, current: seq<seq<DiffBlock>>,
                   lowc: int, high: int, thread: nat, f: seq<File>, last: seq<int>)
    requires Remains(start, f, last) && Ladder(start, using, current, lowc, high, thread)
    ensures high <= |f[FILEC]|
  {
    hide Ordered, Covered;
    SegmentBounds(start[thread], f[thread], f[FILEC], last[thread], last[FILEC], |f[thread]|, |f[FILEC]|);
    assert start[thread][|using[thread]| - 1] == using[thread][|using[thread]| - 1];
  }

  lemma StartsOrdered(start: seq<seq<DiffBlock>>, using: seq<seq<DiffBlock>>, current: seq<seq<DiffBlock>>,
                      lowc: int, high: int, thread: nat)
    requires Ladder(start, using, current, lowc, high, thread)
    ensures StartAt(using, lowc)
  {
    hide Covered;
    forall d | 0 <= d < 2 && using[d] != []
      ensures lowc <= using[d][0].lowC
    {
      assert start[d][0] == using[d][0];
    }
  }

  /** All the blocks of thread d that the rounds so far have used. */
  ghost function Chain(used: seq<seq<seq<DiffBlock>>>, d: nat): seq<DiffBlock>
    requires d < 2 && forall i :: 0 <= i < |used| ==> |used[i]| == 2
  {
    if used == [] then [] else Chain(used[..|used| - 1], d) + used[|used| - 1][d]
  }

  /** The block covers exactly the common lines from the first to the last of the blocks it is made of. */
  ghost predicate MadeOf(b: Diff3Block, using: seq<seq<DiffBlock>>) {
    && |using| == 2 && |b.low| == 3 && |b.high| == 3
    && (b.kind.DIFF_2ND? <==> using[0] == []) && (b.kind.DIFF_1ST? <==> using[0] != [] && using[1] == [])
    && (using[0] != [] || using[1] != [])
    && (forall d, i :: 0 <= d < 2 && 0 <= i < |using[d]| ==> b.low[FILEC] <= using[d][i].lowC && using[d][i].highC <= b.high[FILEC])
    && Covered(using, b.low[FILEC], b.high[FILEC])
    && b.Num(0) == b.Num(FILEC) + Growth(using[0]) && b.Num(1) == b.Num(FILEC) + Growth(using[1])
  }

  /** How many more lines the blocks have in the other file than in the common file. */
  ghost function Growth(u: seq<DiffBlock>): int {
    if u == [] then 0 else u[0].NumO() - u[0].NumC() + Growth(u[1..])
  }

  lemma {:induction false} SegmentGrowth(u: seq<DiffBlock>, o: File, c: File, p: int, q: int, p': int, q': int)
    requires Segment(u, o, c, p, q, p', q')
    ensures p' - p == q' - q + Growth(u)
    decreases |u|
  {
    if u != [] {
      SegmentGrowth(u[1..], o, c, u[0].highO, u[0].highC, p', q');
    }
  }

  /** One round: a block off the threads, which starts at least one common line after the last. */
  method NextBlock(start: seq<seq<DiffBlock>>, last: seq<int>, ghost f: seq<File>)
    returns (b: Option<Diff3Block>, current: seq<seq<DiffBlock>>, ghost using: seq<seq<DiffBlock>>)
    requires Remains(start, f, last) && (start[0] != [] || start[1] != [])
    ensures b.Some? && Okay3(b.value, f) && Agree(f, last, Before(b.value))
    ensures Remains(current, f, b.value.high) && Beyond(current, b.value.high[FILEC])
    ensures MadeOf(b.value, using)
    ensures start == [using[0] + current[0], using[1] + current[1]]
    ensures |current[0]| + |current[1]| < |start[0]| + |start[1]|
    ensures (start[0] != [] && b.value.low[FILEC] == start[0][0].lowC) || (start[1] != [] && b.value.low[FILEC] == start[1][0].lowC)
  {
    hide Segment, Okay3, Agree, Usable, Ladder, Ranges, Ordered, Apart, Covered;
    RemainsOrdered(start, f, last);
    var taken, low, thread;
    taken, current, low, thread := TakeBlocks(start);
    using := taken;
    TakenTogether(start, taken, current, low, thread, f, last);
    b := UsingToDiff3Block(taken, low, thread, last, f);
    if b.Some? {
      MadeAndLeft(taken, current, b.value, f, last);
    }
  }

  lemma TakenTogether(start: seq<seq<DiffBlock>>, using: seq<seq<DiffBlock>>, current: seq<seq<DiffBlock>>,
                      low: nat, thread: nat, f: seq<File>, last: seq<int>)
    requires Remains(start, f, last) && |using| == 2 && low < 2 && thread < 2 && using[low] != [] && using[thread] != []
    requires Ladder(start, using, current, using[low][0].lowC, HighWater(using[thread]), thread)
    requires Beyond(current, HighWater(using[thread]))
    ensures var lowc, high := using[low][0].lowC, HighWater(using[thread]);
            && Usable(using, last, f, lowc, high) && |f| == 3 && |last| == 3
            && Remains(current, f, [HighMap(using[0], 0, last, high), HighMap(using[1], 1, last, high), high])
    ensures start == [using[0] + current[0], using[1] + current[1]]
    ensures start[low] != [] && start[low][0] == using[low][0]
    ensures Covered(using, using[low][0].lowC, HighWater(using[thread]))
  {
    hide Segment, Covered, Inside, Apart, Ordered, Usable, Remains, Beyond, StartAt;
    var lowc, high := using[low][0].lowC, HighWater(using[thread]);
    StartsOrdered(start, using, current, lowc, high, thread);
    assert start[low][0] == using[low][0];
    RemainsOrdered(start, f, last);
    TakenFits(start, using, current, lowc, high, thread, f, last);
  }

  lemma BlockGrowth(using: seq<seq<DiffBlock>>, b: Diff3Block, f: seq<File>, last: seq<int>)
    requires |using| == 2 && Ranges(using, last, b.low, b.high, f)
    ensures b.Num(0) == b.Num(FILEC) + Growth(using[0]) && b.Num(1) == b.Num(FILEC) + Growth(using[1])
  {
    hide Segment, Growth, Usable;
    forall d | 0 <= d < 2
      ensures b.Num(d) == b.Num(FILEC) + Growth(using[d])
    {
      Mapped(using, last, f, b.low[FILEC], b.high[FILEC], d);
      SegmentGrowth(using[d], f[d], f[FILEC], b.low[d] - 1, b.low[FILEC] - 1, b.high[d], b.high[FILEC]);
    }
  }

  lemma MadeAndLeft(using: seq<seq<DiffBlock>>, current: seq<seq<DiffBlock>>, b: Diff3Block, f: seq<File>, last: seq<int>)
    requires |using| == 2 && Ranges(using, last, b.low, b.high, f) && Okay3(b, f)
    requires Covered(using, b.low[FILEC], b.high[FILEC])
    requires |f| == 3 && |last| == 3
    requires (b.kind.DIFF_2ND? <==> using[0] == []) && (b.kind.DIFF_1ST? <==> using[0] != [] && using[1] == [])
    requires Remains(current, f, [HighMap(using[0], 0, last, b.high[FILEC]), HighMap(using[1], 1, last, b.high[FILEC]), b.high[FILEC]])
    ensures Remains(current, f, b.high) && MadeOf(b, using)
  {
    hide Okay3, Covered, Segment, Remains, Growth;
    BlockGrowth(using, b, f, last);
    assert b.high == [HighMap(using[0], 0, last, b.high[FILEC]), HighMap(using[1], 1, last, b.high[FILEC]), b.high[FILEC]];
  }

  /** Block i is made of the blocks used in round i, and the rounds use up both threads, block after block. */
  ghost predicate Woven(bs: seq<Diff3Block>, used: seq<seq<seq<DiffBlock>>>, current: seq<seq<DiffBlock>>, thread0: seq<DiffBlock>, thread1: seq<DiffBlock>) {
    && |used| == |bs| && |current| == 2
    && (forall i :: 0 <= i < |bs| ==> MadeOf(bs[i], used[i]))
    && Chain(used, 0) + current[0] == thread0 && Chain(used, 1) + current[1] == thread1
  }

  lemma WeaveMore(bs: seq<Diff3Block>, used: seq<seq<seq<DiffBlock>>>, start: seq<seq<DiffBlock>>, thread0: seq<DiffBlock>, thread1: seq<DiffBlock>,
                  b: Diff3Block, using: seq<seq<DiffBlock>>, current: seq<seq<DiffBlock>>)
    requires Woven(bs, used, start, thread0, thread1) && MadeOf(b, using)
    requires |current| == 2 && start == [using[0] + current[0], using[1] + current[1]]
    ensures Woven(bs + [b], used + [using], current, thread0, thread1)
  {
    hide MadeOf;
    assert |using| == 2 && forall i :: 0 <= i < |used| ==> |used[i]| == 2 by {
      forall i | 0 <= i < |used|
        ensures |used[i]| == 2
      {
        TwoThreads(bs[i], used[i]);
      }
      TwoThreads(b, using);
    }
    var more := used + [using];
    assert more[..|more| - 1] == used;
    assert (Chain(used, 0) + using[0]) + current[0] == thread0;
    assert (Chain(used, 1) + using[1]) + current[1] == thread1;
  }

  lemma TwoThreads(b: Diff3Block, using: seq<seq<DiffBlock>>)
    requires MadeOf(b, using)
    ensures |using| == 2
  {
  }

  /** The blocks so far account for the files up to the end of the last one. */
  ghost predicate SoFar(bs: seq<Diff3Block>, f: seq<File>, last: seq<int>) {
    && |last| == 3 && Segment3(bs, f, [0, 0, 0], last) && Apart3(bs)
    && (bs != [] ==> last == bs[|bs| - 1].high)
  }

  lemma OneBlockMore(bs: seq<Diff3Block>, f: seq<File>, last: seq<int>, start: seq<seq<DiffBlock>>, b: Diff3Block)
    requires SoFar(bs, f, last) && |start| == 2 && Okay3(b, f) && Agree(f, last, Before(b))
    requires bs != [] ==> Beyond(start, last[FILEC])
    requires (start[0] != [] && b.low[FILEC] == start[0][0].lowC) || (start[1] != [] && b.low[FILEC] == start[1][0].lowC)
    ensures SoFar(bs + [b], f, b.high)
  {
    assert |b.low| == 3 && |b.high| == 3;
    hide Segment3, Okay3, Agree;
    AppendBlock(bs, b, f, [0, 0, 0], last);
    forall i, j | 0 <= i < j < |bs + [b]| && j == i + 1
      ensures Below((bs + [b])[i], (bs + [b])[j])
    {
      if j < |bs| {
        assert (bs + [b])[i] == bs[i] && (bs + [b])[j] == bs[j];
      } else {
        assert (bs + [b])[i] == bs[|bs| - 1] && (bs + [b])[j] == b;
      }
    }
    assert (bs + [b])[|bs + [b]| - 1] == b;
  }

  lemma Beginning(thread0: seq<DiffBlock>, thread1: seq<DiffBlock>, f: seq<File>)
    requires |f| == 3 && IsThread(thread0, f[0], f[FILEC]) && IsThread(thread1, f[1], f[FILEC])
    ensures Remains([thread0, thread1], f, [0, 0, 0]) && SoFar([], f, [0, 0, 0])
    ensures Woven([], [], [thread0, thread1], thread0, thread1)
  {
    hide Segment, Segment3, Apart, Apart3, Chain, MadeOf;
    assert [] + thread0 == thread0 && [] + thread1 == thread1;
    NoRounds(thread0, thread1);
    NoBlocks(f);
  }

  lemma NoRounds(thread0: seq<DiffBlock>, thread1: seq<DiffBlock>)
    ensures Woven([], [], [thread0, thread1], thread0, thread1)
  {
    assert [] + thread0 == thread0 && [] + thread1 == thread1;
  }

  lemma NoBlocks(f: seq<File>)
    requires |f| == 3
    ensures SoFar([], f, [0, 0, 0])
  {
  }

  lemma ChainLast(used: seq<seq<seq<DiffBlock>>>, d: nat)
    requires d < 2 && used != [] && forall j :: 0 <= j < |used| ==> |used[j]| == 2
    ensures Chain(used, d) == Chain(used[..|used| - 1], d) + used[|used| - 1][d]
  {
  }

  lemma Ending(bs: seq<Diff3Block>, f: seq<File>, current: seq<seq<DiffBlock>>, last: seq<int>)
    requires SoFar(bs, f, last) && Remains(current, f, last) && current == [[], []]
    ensures IsDiff3(bs, f)
  {
    assert Agree(f, last, Lengths(f));
    ExtendSegment3(bs, f, [0, 0, 0], last, Lengths(f));
  }

  /** A three-way diff of both files and the common one; None stands for the error over a misshapen block. */
  method Make3WayDiff(thread0: seq<DiffBlock>, thread1: seq<DiffBlock>, ghost f: seq<File>)
    returns (r: Option<seq<Diff3Block>>, ghost used: seq<seq<seq<DiffBlock>>>)
    requires |f| == 3 && IsThread(thread0, f[0], f[FILEC]) && IsThread(thread1, f[1], f[FILEC])
    ensures r.Some? && IsDiff3(r.value, f)
    ensures Woven(r.value, used, [[], []], thread0, thread1)
  {
    hide Segment, Segment3, Okay3, Agree, MadeOf, Apart, Apart3, Chain;
    var current := [thread0, thread1];
    var last := [0, 0, 0];
    var result := [];
    used := [];
    Beginning(thread0, thread1, f);
    while current[0] != [] || current[1] != []
      invariant Remains(current, f, last) && (result != [] ==> Beyond(current, last[FILEC]))
      invariant SoFar(result, f, last) && Woven(result, used, current, thread0, thread1)
      decreases |current[0]| + |current[1]|
    {
      var start := current;
      ghost var using;
      var b;
      b, current, using := NextBlock(start, last, f);
      if b == None {
        return None, used;
      }
      OneBlockMore(result, f, last, start, b.value);
      WeaveMore(result, used, start, thread0, thread1, b.value, using, current);
      result := result + [b.value];
      used := used + [using];
      last := b.value.high;
    }
    Ending(result, f, current, last);
    return Some(result), used;
  }
}
