/**
 `diag`: find a point at which to cut a box of the edit graph in two.

 Two searches run towards each other, one edit per round.  If they meet, the
 meeting point lies on a shortest script.  Unless the caller insists on that, two
 heuristics may stop them early, at some other point inside the box.
 */
module Diag {
  import opened Wrappers
  import opened EditGraph
  import opened Diagonals

  /** Snakes longer than this are "big". */
  const SNAKE_LIMIT := 20
  const INT_MAX := 0x7FFF_FFFF

  datatype Partition = Partition(xmid: int, ymid: int, loMinimal: bool, hiMinimal: bool)

  /** The search was cut short: the midpoint has been reached, from the end whose half is to be minimal, at about half the cost given. */
  ghost predicate GivenUp(b: Box, part: Partition, cost: int) {
    && b.Valid() && 0 < cost < Distance(b) && cost % 2 == 1
    && part.loMinimal != part.hiMinimal
    && (part.loMinimal ==> ForwardPoint(b, (cost + 1) / 2, part.xmid, part.ymid))
    && (part.hiMinimal ==> BackwardPoint(b, (cost + 1) / 2, part.xmid, part.ymid))
  }

  // ----- What the heuristics look for

  /** How far a forward point has come, for a point of diagonal d. */
  function ForwardGain(b: Box, d: int, x: int): int {
    (x - b.xoff) * 2 - (d - (b.xoff - b.yoff))
  }

  function BackwardGain(b: Box, d: int, x: int): int {
    (b.xlim - x) * 2 + (d - (b.xlim - b.ylim))
  }

  function Abs(n: int): nat {
    if n < 0 then -n else n
  }

  /** On diagonal d, all lines from one up to another agree. */
  ghost predicate Snake(b: Box, d: int, from: int, to: int) {
    forall i, j :: from <= i < to && i - j == d ==> b.Same(i, j)
  }

  /** Point x of diagonal d has come far for its cost and is the end of a big snake, inside the box. */
  ghost predicate FarForward(b: Box, c: nat, d: int, x: int) {
    && ForwardGain(b, d, x) > 12 * (c + Abs(d - (b.xoff - b.yoff)))
    && b.xoff + SNAKE_LIMIT <= x < b.xlim && b.yoff + SNAKE_LIMIT <= x - d < b.ylim
    && Snake(b, d, x - SNAKE_LIMIT, x)
  }

  /** The same for the backward search: the beginning of a big snake. */
  ghost predicate FarBackward(b: Box, c: nat, d: int, x: int) {
    && BackwardGain(b, d, x) > 12 * (c + Abs(d - (b.xlim - b.ylim)))
    && b.xoff < x <= b.xlim - SNAKE_LIMIT && b.yoff < x - d <= b.ylim - SNAKE_LIMIT
    && Snake(b, d, x, x + SNAKE_LIMIT)
  }

  /** The entry of diagonal d is such a point. */
  ghost predicate BigForward(b: Box, c: nat, fd: seq<int>, off: int, lo: int, hi: int, d: int) {
    InRow(lo, hi, d) && 0 <= d + off < |fd| && FarForward(b, c, d, fd[d + off])
  }

  ghost predicate BigBackward(b: Box, c: nat, bd: seq<int>, off: int, lo: int, hi: int, d: int) {
    InRow(lo, hi, d) && 0 <= d + off < |bd| && FarBackward(b, c, d, bd[d + off])
  }

  /** Of the diagonals beyond d, none with a big snake has come further than best, which is the gain of point (x, y). */
  ghost predicate BestForwardSnake(b: Box, c: nat, fd: seq<int>, off: int, lo: int, hi: int, d: int, best: int, x: int, y: int) {
    && 0 <= best
    && (best > 0 ==> BigForward(b, c, fd, off, lo, hi, x - y) && x == fd[x - y + off] && best == ForwardGain(b, x - y, x))
    && forall e :: d < e && BigForward(b, c, fd, off, lo, hi, e) ==> ForwardGain(b, e, fd[e + off]) <= best
  }

  ghost predicate BestBackwardSnake(b: Box, c: nat, bd: seq<int>, off: int, lo: int, hi: int, d: int, best: int, x: int, y: int) {
    && 0 <= best
    && (best > 0 ==> BigBackward(b, c, bd, off, lo, hi, x - y) && x == bd[x - y + off] && best == BackwardGain(b, x - y, x))
    && forall e :: d < e && BigBackward(b, c, bd, off, lo, hi, e) ==> BackwardGain(b, e, bd[e + off]) <= best
  }

  lemma NextForwardSnake(b: Box, c: nat, fd: seq<int>, off: int, lo: int, hi: int, d: int, best: int, xmid: int, ymid: int)
    requires BestForwardSnake(b, c, fd, off, lo, hi, d, best, xmid, ymid) && InRow(lo, hi, d) && 0 <= d + off < |fd|
    ensures var x := fd[d + off];
            if FarForward(b, c, d, x) && ForwardGain(b, d, x) > best
            then BestForwardSnake(b, c, fd, off, lo, hi, d - 2, ForwardGain(b, d, x), x, x - d)
            else BestForwardSnake(b, c, fd, off, lo, hi, d - 2, best, xmid, ymid)
  {
    hide FarForward, FarBackward;
    assert !InRow(lo, hi, d - 1);
  }

  lemma NextBackwardSnake(b: Box, c: nat, bd: seq<int>, off: int, lo: int, hi: int, d: int, best: int, xmid: int, ymid: int)
    requires BestBackwardSnake(b, c, bd, off, lo, hi, d, best, xmid, ymid) && InRow(lo, hi, d) && 0 <= d + off < |bd|
    ensures var x := bd[d + off];
            if FarBackward(b, c, d, x) && BackwardGain(b, d, x) > best
            then BestBackwardSnake(b, c, bd, off, lo, hi, d - 2, BackwardGain(b, d, x), x, x - d)
            else BestBackwardSnake(b, c, bd, off, lo, hi, d - 2, best, xmid, ymid)
  {
    hide FarForward, FarBackward;
    assert !InRow(lo, hi, d - 1);
  }

  lemma NoForwardSnake(b: Box, c: nat, lo: int, hi: int, fd: seq<int>, off: int, x: int, y: int)
    requires ForwardRow(b, c, lo, hi, fd, off)
    ensures 0 <= lo + off && hi + off < |fd|
    ensures BestForwardSnake(b, c, fd, off, lo, hi, hi, 0, x, y)
  {
  }

  lemma NoBackwardSnake(b: Box, c: nat, lo: int, hi: int, bd: seq<int>, off: int, x: int, y: int)
    requires BackwardRow(b, c, lo, hi, bd, off)
    ensures 0 <= lo + off && hi + off < |bd|
    ensures BestBackwardSnake(b, c, bd, off, lo, hi, hi, 0, x, y)
  {
  }

  lemma ForwardSnakeIsPoint(b: Box, c: nat, lo: int, hi: int, fd: seq<int>, off: int, d: int, best: int, x: int, y: int)
    requires ForwardRow(b, c, lo, hi, fd, off) && d < lo && BestForwardSnake(b, c, fd, off, lo, hi, d, best, x, y)
    ensures BestForwardSnake(b, c, fd, off, lo, hi, lo - 1, best, x, y) && (best > 0 ==> ForwardPoint(b, c, x, y))
  {
    hide Cost, Furthest, ForwardRow, Snake;
    if best > 0 {
      ForwardRowReached(b, c, lo, hi, fd, off, x - y);
    }
  }

  lemma BackwardSnakeIsPoint(b: Box, c: nat, lo: int, hi: int, bd: seq<int>, off: int, d: int, best: int, x: int, y: int)
    requires BackwardRow(b, c, lo, hi, bd, off) && d < lo && BestBackwardSnake(b, c, bd, off, lo, hi, d, best, x, y)
    ensures BestBackwardSnake(b, c, bd, off, lo, hi, lo - 1, best, x, y) && (best > 0 ==> BackwardPoint(b, c, x, y))
  {
    hide Cost, Earliest, Snake, BackwardRow;
    if best > 0 {
      BackwardRowReached(b, c, lo, hi, bd, off, x - y);
    }
  }

  /** Of the diagonals beyond d, none gets further, inside the box, than the sum best, which best's diagonal e gets to. */
  ghost predicate FurthestSum(b: Box, fd: seq<int>, off: int, lo: int, hi: int, d: int, best: int, x: int) {
    && (exists e :: InRow(lo, hi, e) && x == ClippedForward(b, fd, off, e) && best == 2 * x - e)
    && forall e :: d < e && InRow(lo, hi, e) ==> 2 * ClippedForward(b, fd, off, e) - e <= best
  }

  ghost predicate EarliestSum(b: Box, bd: seq<int>, off: int, lo: int, hi: int, d: int, best: int, x: int) {
    && (exists e :: InRow(lo, hi, e) && x == ClippedBackward(b, bd, off, e) && best == 2 * x - e)
    && forall e :: d < e && InRow(lo, hi, e) ==> best <= 2 * ClippedBackward(b, bd, off, e) - e
  }

  lemma NextFurthestSum(b: Box, fd: seq<int>, off: int, lo: int, hi: int, d: int, best: int, xbest: int)
    requires InRow(lo, hi, d) && (d == hi || FurthestSum(b, fd, off, lo, hi, d, best, xbest)) && (hi - lo) % 2 == 0
    ensures var x := ClippedForward(b, fd, off, d);
            if d == hi || best < 2 * x - d then FurthestSum(b, fd, off, lo, hi, d - 2, 2 * x - d, x)
            else FurthestSum(b, fd, off, lo, hi, d - 2, best, xbest)
  {
    hide ClippedForward;
    assert !InRow(lo, hi, d - 1);
  }

  lemma NextEarliestSum(b: Box, bd: seq<int>, off: int, lo: int, hi: int, d: int, best: int, xbest: int)
    requires InRow(lo, hi, d) && (d == hi || EarliestSum(b, bd, off, lo, hi, d, best, xbest)) && (hi - lo) % 2 == 0
    ensures var x := ClippedBackward(b, bd, off, d);
            if d == hi || 2 * x - d < best then EarliestSum(b, bd, off, lo, hi, d - 2, 2 * x - d, x)
            else EarliestSum(b, bd, off, lo, hi, d - 2, best, xbest)
  {
    hide ClippedBackward;
    assert !InRow(lo, hi, d - 1);
  }

  lemma AllSummedForward(b: Box, fd: seq<int>, off: int, lo: int, hi: int, d: int, best: int, x: int)
    requires FurthestSum(b, fd, off, lo, hi, d, best, x) && d < lo
    ensures FurthestSum(b, fd, off, lo, hi, lo - 1, best, x)
  {
  }

  lemma AllSummedBackward(b: Box, bd: seq<int>, off: int, lo: int, hi: int, d: int, best: int, x: int)
    requires EarliestSum(b, bd, off, lo, hi, d, best, x) && d < lo
    ensures EarliestSum(b, bd, off, lo, hi, lo - 1, best, x)
  {
  }

  // ----- When the search gets too expensive

  /** An approximate square root. */
  function Root(n: nat): nat {
    if n == 0 then 1 else 2 * Root(n / 4)
  }

  /** It is more than the square root, and at most twice that. */
  lemma {:induction false} RootIsClose(n: nat)
    requires 0 < n
    ensures n < Root(n) * Root(n) <= 4 * n
    decreases n
  {
    var m, r := n / 4, Root(n / 4);
    assert Root(n) == 2 * r;
    DoubledFactor(1, r);
    if m > 0 {
      RootIsClose(m);
    }
  }

  lemma RootStep(root: nat, n: nat)
    requires n != 0
    ensures root * Root(n) == root * 2 * Root(n / 4)
  {
    var half := Root(n / 4);
    assert Root(n) == 2 * half;
    hide Root;
    DoubledFactor(root, half);
  }

  lemma NoRoot(root: nat)
    ensures root * Root(0) == root
  {
  }

  lemma DoubledFactor(a: nat, b: nat)
    ensures a * (2 * b) == a * 2 * b && (2 * b) * (2 * b) == 4 * (b * b)
  {
  }

  /** So many rounds are too expensive when this many lines are compared. */
  function TooExpensive(lines: nat): nat {
    if Root(lines) < 256 then 256 else Root(lines)
  }

  /** One comparison of two vectors of equivalence codes. */
  class Comparison {
    const xvec: seq<int>
    const yvec: seq<int>
    const fdiag: array<int>
    const bdiag: array<int>
    const off: nat  // diagonal d has entry d + off
    const heuristic: bool
    const tooExpensive: nat

    ghost predicate Ready() {
      && fdiag != bdiag
      && fdiag.Length == bdiag.Length == |xvec| + |yvec| + 3
      && off == |yvec| + 1
      && |xvec| + |yvec| + 3 < INT_MAX
      && 256 <= tooExpensive
    }

    /** The distance is too small for a search of the box to be cut short. */
    ghost predicate Affordable(b: Box)
      requires b.Valid()
    {
      Distance(b) < 2 * tooExpensive && (heuristic ==> Distance(b) < 402)
    }

    lemma SameDistance(b: Box, c: Box)
      requires b.Valid() && c.Valid() && Distance(b) == Distance(c)
      ensures Affordable(b) <==> Affordable(c)
    {
      hide Distance;
    }

    ghost predicate Mine(b: Box) {
      b.Valid() && b.xv == xvec && b.yv == yvec
    }

    constructor (xvec: seq<int>, yvec: seq<int>, heuristic: bool)
      requires |xvec| + |yvec| + 3 < INT_MAX
      ensures Ready() && fresh(fdiag) && fresh(bdiag)
      ensures this.xvec == xvec && this.yvec == yvec && this.heuristic == heuristic
      ensures tooExpensive == TooExpensive(|xvec| + |yvec|)
    {
      hide Root;
      this.xvec, this.yvec, this.heuristic := xvec, yvec, heuristic;
      fdiag := new int[|xvec| + |yvec| + 3];
      bdiag := new int[|xvec| + |yvec| + 3];
      off := |yvec| + 1;
      // An approximate square root of the input size, but at least 256.
      var root, i: nat := 1, |xvec| + |yvec|;
      while i != 0
        invariant root * Root(i) == Root(|xvec| + |yvec|) && 1 <= root
      {
        RootStep(root, i);
        root, i := root * 2, i / 4;
      }
      NoRoot(root);
      tooExpensive := if root < 256 then 256 else root;
    }

    /** Make room for one more edit: widen the range, or step back from the edge of the box. */
    method WidenForward(b: Box, c: nat, lo0: int, hi0: int) returns (lo: int, hi: int)
      requires Ready() && Mine(b) && Trimmed(b) && 1 <= c
      requires Limits(b, b.xoff - b.yoff, c - 1, lo0, hi0) && ForwardRow(b, c - 1, lo0, hi0, fdiag[..], off)
      modifies fdiag
      ensures Limits(b, b.xoff - b.yoff, c, lo, hi) && lo - 1 <= lo0 <= hi0 <= hi + 1
      ensures ForwardOpen(b, c, lo, hi, fdiag[..], off)
    {
      hide Cost, Furthest, ForwardEntry, ForwardRow, ForwardOpen;
      ghost var before := fdiag[..];
      LimitsAroundCentre(b, b.xoff - b.yoff, c - 1, lo0, hi0);
      WidenedLimits(b, b.xoff - b.yoff, c - 1, lo0, hi0);
      if lo0 > b.xoff - b.ylim {
        lo := lo0 - 1;
        fdiag[lo - 1 + off] := -1;
      } else {
        lo := lo0 + 1;
      }
      if hi0 < b.xlim - b.yoff {
        hi := hi0 + 1;
        fdiag[hi + 1 + off] := -1;
      } else {
        hi := hi0 - 1;
      }
      OpenFromRow(b, c, lo0, hi0, before, fdiag[..], off);
    }

    /** The new entry of diagonal d, from its two neighbours: one edit, then all the matches that follow. */
    method ForwardSnake(b: Box, c: nat, d: int, tlo: int, thi: int) returns (x: int, big: bool)
      requires Ready() && Mine(b) && Trimmed(b)
      requires ForwardEntry(b, c - 1, d - 1, tlo) && ForwardEntry(b, c - 1, d + 1, thi)
      requires tlo != -1 || thi != -1
      ensures Furthest(b, c, d, x)
    {
      ForwardEdit(b, c, d, tlo, thi);
      x := if tlo >= thi then tlo + 1 else thi;
      var oldx, y := x, x - d;
      while x < b.xlim && y < b.ylim && xvec[x] == yvec[y]
        invariant oldx <= x && y == x - d && b.xoff <= x && b.yoff <= y && FromStart(b, x, y) <= c
      {
        OneMore(b, b.xoff, b.yoff, x, y);
        x, y := x + 1, y + 1;
      }
      ForwardStep(b, c, d, tlo, thi, x);
      big := x - oldx > SNAKE_LIMIT;
    }

    /** One diagonal of a forward round: compute its entry and see whether the searches meet there. */
    method ForwardDiagonal(b: Box, c: nat, lo: int, hi: int, d: int, blo: int, bhi: int, odd: bool)
      returns (x: int, big: bool, met: bool)
      requires Ready() && Mine(b) && Trimmed(b)
      requires 1 <= c && 2 * c - 1 <= Distance(b)
      requires odd == ((b.xoff - b.yoff - (b.xlim - b.ylim)) % 2 != 0)
      requires Limits(b, b.xoff - b.yoff, c, lo, hi) && ForwardOpen(b, c, lo, hi, fdiag[..], off)
      requires lo <= d <= hi && (d - lo) % 2 == 0 && ForwardRow(b, c, d + 2, hi, fdiag[..], off)
      requires Limits(b, b.xlim - b.ylim, c - 1, blo, bhi) && BackwardRow(b, c - 1, blo, bhi, bdiag[..], off)
      requires odd ==> Apart(d + 2, hi, fdiag[..], blo, bhi, bdiag[..], off)
      modifies fdiag
      ensures met ==> odd && Splits(b, x, x - d, c, c - 1) && Distance(b) == 2 * c - 1
      ensures ForwardOpen(b, c, lo, hi, fdiag[..], off) && ForwardRow(b, c, d, hi, fdiag[..], off)
      ensures !met && odd ==> Apart(d, hi, fdiag[..], blo, bhi, bdiag[..], off)
    {
      hide Cost, Furthest, Earliest, ForwardEntry, Apart, Limits;
      OpenNeighbours(b, c, lo, hi, fdiag[..], off, d);
      x, big := ForwardSnake(b, c, d, fdiag[d - 1 + off], fdiag[d + 1 + off]);
      ForwardWritten(b, c, lo, hi, d, x, fdiag[..], off);
      ghost var before := fdiag[..];
      fdiag[d + off] := x;
      assert fdiag[..] == before[d + off := x];
      met := odd && blo <= d <= bhi && bdiag[d + off] <= x;
      if odd {
        RowsShareParity(b, c, lo, hi, c - 1, blo, bhi, d);
        if met {
          MeetBackwardRow(b, c, lo, hi, d, x, c - 1, blo, bhi, bdiag[..], off);
        } else {
          ApartForwardWritten(hi, before, blo, bhi, bdiag[..], off, d, x);
        }
      }
    }

    /** One more edit from the start: fill in a row, or find where it meets the row from the end. */
    method ForwardRound(b: Box, c: nat, lo0: int, hi0: int, blo: int, bhi: int, odd: bool)
      returns (lo: int, hi: int, bigSnake: bool, met: bool, x: int, y: int)
      requires Ready() && Mine(b) && Trimmed(b)
      requires 1 <= c && 2 * c - 1 <= Distance(b)
      requires odd == ((b.xoff - b.yoff - (b.xlim - b.ylim)) % 2 != 0)
      requires Limits(b, b.xoff - b.yoff, c - 1, lo0, hi0) && ForwardRow(b, c - 1, lo0, hi0, fdiag[..], off)
      requires Limits(b, b.xlim - b.ylim, c - 1, blo, bhi) && BackwardRow(b, c - 1, blo, bhi, bdiag[..], off)
      modifies fdiag
      ensures met ==> odd && Splits(b, x, y, c, c - 1) && Distance(b) == 2 * c - 1
      ensures !met ==> Limits(b, b.xoff - b.yoff, c, lo, hi) && ForwardRow(b, c, lo, hi, fdiag[..], off)
      ensures !met && odd ==> Apart(lo, hi, fdiag[..], blo, bhi, bdiag[..], off)
    {
      hide Cost, ForwardOpen, ForwardRow, Apart, Limits, Splits;
      lo, hi := WidenForward(b, c, lo0, hi0);
      bigSnake, met, x, y := false, false, b.xoff, b.yoff;
      var d := hi;
      LimitsParity(b, b.xoff - b.yoff, c, lo, hi);
      LimitsAroundCentre(b, b.xoff - b.yoff, c, lo, hi);
      NothingWritten(b, c, lo, hi, fdiag[..], blo, bhi, bdiag[..], off);
      while d >= lo
        invariant lo - 2 <= d <= hi && (d - lo) % 2 == 0
        invariant ForwardOpen(b, c, lo, hi, fdiag[..], off)
        invariant ForwardRow(b, c, d + 2, hi, fdiag[..], off)
        invariant odd ==> Apart(d + 2, hi, fdiag[..], blo, bhi, bdiag[..], off)
      {
        var big;
        x, big, met := ForwardDiagonal(b, c, lo, hi, d, blo, bhi, odd);
        y := x - d;
        bigSnake := bigSnake || big;
        if met {
          return;
        }
        d := d - 2;
      }
    }

    method WidenBackward(b: Box, c: nat, lo0: int, hi0: int) returns (lo: int, hi: int)
      requires Ready() && Mine(b) && Trimmed(b) && 1 <= c
      requires Limits(b, b.xlim - b.ylim, c - 1, lo0, hi0) && BackwardRow(b, c - 1, lo0, hi0, bdiag[..], off)
      modifies bdiag
      ensures Limits(b, b.xlim - b.ylim, c, lo, hi)
      ensures BackwardOpen(b, c, lo, hi, bdiag[..], off, INT_MAX)
    {
      hide Cost, Earliest, BackwardEntry, BackwardRow, BackwardOpen;
      ghost var before := bdiag[..];
      LimitsAroundCentre(b, b.xlim - b.ylim, c - 1, lo0, hi0);
      WidenedLimits(b, b.xlim - b.ylim, c - 1, lo0, hi0);
      if lo0 > b.xoff - b.ylim {
        lo := lo0 - 1;
        bdiag[lo - 1 + off] := INT_MAX;
      } else {
        lo := lo0 + 1;
      }
      if hi0 < b.xlim - b.yoff {
        hi := hi0 + 1;
        bdiag[hi + 1 + off] := INT_MAX;
      } else {
        hi := hi0 - 1;
      }
      OpenFromRowBack(b, c, lo0, hi0, before, bdiag[..], off, INT_MAX);
    }

    method BackwardSnake(b: Box, c: nat, d: int, tlo: int, thi: int) returns (x: int, big: bool)
      requires Ready() && Mine(b) && Trimmed(b)
      requires BackwardEntry(b, c - 1, d - 1, tlo, INT_MAX) && BackwardEntry(b, c - 1, d + 1, thi, INT_MAX)
      requires tlo != INT_MAX || thi != INT_MAX
      ensures Earliest(b, c, d, x)
    {
      BackwardEdit(b, c, d, tlo, thi, INT_MAX);
      x := if tlo < thi then tlo else thi - 1;
      var oldx, y := x, x - d;
      while x > b.xoff && y > b.yoff && xvec[x - 1] == yvec[y - 1]
        invariant x <= oldx && y == x - d && x <= b.xlim && y <= b.ylim && ToEnd(b, x, y) <= c
      {
        x, y := x - 1, y - 1;
      }
      BackwardStep(b, c, d, tlo, thi, INT_MAX, x);
      big := oldx - x > SNAKE_LIMIT;
    }

    method BackwardDiagonal(b: Box, c: nat, lo: int, hi: int, d: int, flo: int, fhi: int, odd: bool)
      returns (x: int, big: bool, met: bool)
      requires Ready() && Mine(b) && Trimmed(b)
      requires 1 <= c && 2 * c <= Distance(b)
      requires odd == ((b.xoff - b.yoff - (b.xlim - b.ylim)) % 2 != 0)
      requires Limits(b, b.xlim - b.ylim, c, lo, hi) && BackwardOpen(b, c, lo, hi, bdiag[..], off, INT_MAX)
      requires lo <= d <= hi && (d - lo) % 2 == 0 && BackwardRow(b, c, d + 2, hi, bdiag[..], off)
      requires Limits(b, b.xoff - b.yoff, c, flo, fhi) && ForwardRow(b, c, flo, fhi, fdiag[..], off)
      requires !odd ==> Apart(flo, fhi, fdiag[..], d + 2, hi, bdiag[..], off)
      modifies bdiag
      ensures met ==> !odd && Splits(b, x, x - d, c, c) && Distance(b) == 2 * c
      ensures BackwardOpen(b, c, lo, hi, bdiag[..], off, INT_MAX) && BackwardRow(b, c, d, hi, bdiag[..], off)
      ensures !met && !odd ==> Apart(flo, fhi, fdiag[..], d, hi, bdiag[..], off)
    {
      hide Cost, Furthest, Earliest, BackwardEntry, Apart, Limits;
      OpenNeighboursBack(b, c, lo, hi, bdiag[..], off, INT_MAX, d);
      x, big := BackwardSnake(b, c, d, bdiag[d - 1 + off], bdiag[d + 1 + off]);
      BackwardWritten(b, c, lo, hi, d, x, bdiag[..], off, INT_MAX);
      ghost var before := bdiag[..];
      bdiag[d + off] := x;
      assert bdiag[..] == before[d + off := x];
      met := !odd && flo <= d <= fhi && x <= fdiag[d + off];
      if !odd {
        RowsShareParity(b, c, flo, fhi, c, lo, hi, d);
        if met {
          MeetForwardRow(b, c, flo, fhi, fdiag[..], off, c, lo, hi, d, x);
        } else {
          ApartBackwardWritten(flo, fhi, fdiag[..], hi, before, off, d, x);
        }
      }
    }

    /** One more edit from the end: fill in a row, or find where it meets the row from the start. */
    method BackwardRound(b: Box, c: nat, lo0: int, hi0: int, flo: int, fhi: int, odd: bool)
      returns (lo: int, hi: int, bigSnake: bool, met: bool, x: int, y: int)
      requires Ready() && Mine(b) && Trimmed(b)
      requires 1 <= c && 2 * c <= Distance(b)
      requires odd == ((b.xoff - b.yoff - (b.xlim - b.ylim)) % 2 != 0)
      requires Limits(b, b.xlim - b.ylim, c - 1, lo0, hi0) && BackwardRow(b, c - 1, lo0, hi0, bdiag[..], off)
      requires Limits(b, b.xoff - b.yoff, c, flo, fhi) && ForwardRow(b, c, flo, fhi, fdiag[..], off)
      modifies bdiag
      ensures met ==> !odd && Splits(b, x, y, c, c) && Distance(b) == 2 * c
      ensures !met ==> Limits(b, b.xlim - b.ylim, c, lo, hi) && BackwardRow(b, c, lo, hi, bdiag[..], off)
      ensures !met && !odd ==> Apart(flo, fhi, fdiag[..], lo, hi, bdiag[..], off)
    {
      hide Cost, BackwardOpen, BackwardRow, Apart, Limits, Splits;
      lo, hi := WidenBackward(b, c, lo0, hi0);
      bigSnake, met, x, y := false, false, b.xoff, b.yoff;
      var d := hi;
      LimitsParity(b, b.xlim - b.ylim, c, lo, hi);
      LimitsAroundCentre(b, b.xlim - b.ylim, c, lo, hi);
      NothingWrittenBack(b, c, lo, hi, bdiag[..], flo, fhi, fdiag[..], off, INT_MAX);
      while d >= lo
        invariant lo - 2 <= d <= hi && (d - lo) % 2 == 0
        invariant BackwardOpen(b, c, lo, hi, bdiag[..], off, INT_MAX)
        invariant BackwardRow(b, c, d + 2, hi, bdiag[..], off)
        invariant !odd ==> Apart(flo, fhi, fdiag[..], d + 2, hi, bdiag[..], off)
      {
        var big;
        x, big, met := BackwardDiagonal(b, c, lo, hi, d, flo, fhi, odd);
        y := x - d;
        bigSnake := bigSnake || big;
        if met {
          return;
        }
        d := d - 2;
      }
    }

    /** Whether a big snake ends at a point. */
    method SnakeBefore(b: Box, x: int, y: int) returns (long: bool)
      requires Mine(b) && b.xoff + SNAKE_LIMIT <= x < b.xlim && b.yoff + SNAKE_LIMIT <= y < b.ylim
      ensures long <==> Snake(b, x - y, x - SNAKE_LIMIT, x)
    {
      var k := 1;
      while xvec[x - k] == yvec[y - k]
        invariant 1 <= k <= SNAKE_LIMIT
        invariant Snake(b, x - y, x - k + 1, x)
        decreases SNAKE_LIMIT - k
      {
        if k == SNAKE_LIMIT {
          return true;
        }
        k := k + 1;
      }
      assert !b.Same(x - k, y - k);
      long := false;
    }

    /** Whether one begins there. */
    method SnakeAfter(b: Box, x: int, y: int) returns (long: bool)
      requires Mine(b) && b.xoff < x <= b.xlim - SNAKE_LIMIT && b.yoff < y <= b.ylim - SNAKE_LIMIT
      ensures long <==> Snake(b, x - y, x, x + SNAKE_LIMIT)
    {
      var k := 0;
      while xvec[x + k] == yvec[y + k]
        invariant 0 <= k < SNAKE_LIMIT
        invariant Snake(b, x - y, x, x + k)
        decreases SNAKE_LIMIT - k
      {
        if k == SNAKE_LIMIT - 1 {
          return true;
        }
        k := k + 1;
      }
      assert !b.Same(x + k, y + k);
      long := false;
    }

    /** Whether point x of diagonal d is the end of a big snake and has come further than most. */
    method BetterForward(b: Box, c: nat, d: int, x: int, most: int) returns (better: bool, v: int)
      requires Mine(b)
      ensures better <==> FarForward(b, c, d, x) && v > most
      ensures v == ForwardGain(b, d, x)
    {
      hide Snake;
      var dd := d - (b.xoff - b.yoff);
      var y := x - d;
      v := (x - b.xoff) * 2 - dd;
      better := false;
      if v > 12 * (c + (if dd < 0 then -dd else dd)) {
        if v > most && b.xoff + SNAKE_LIMIT <= x < b.xlim && b.yoff + SNAKE_LIMIT <= y < b.ylim {
          better := SnakeBefore(b, x, y);
        }
      }
    }

    /** Whether point x of diagonal d begins a big snake and has come further than most. */
    method BetterBackward(b: Box, c: nat, d: int, x: int, most: int) returns (better: bool, v: int)
      requires Mine(b)
      ensures better <==> FarBackward(b, c, d, x) && v > most
      ensures v == BackwardGain(b, d, x)
    {
      hide Snake;
      var dd := d - (b.xlim - b.ylim);
      var y := x - d;
      v := (b.xlim - x) * 2 + dd;
      better := false;
      if v > 12 * (c + (if dd < 0 then -dd else dd)) {
        if v > most && b.xoff < x <= b.xlim - SNAKE_LIMIT && b.yoff < y <= b.ylim - SNAKE_LIMIT {
          better := SnakeAfter(b, x, y);
        }
      }
    }

    /** Of the forward entries that end in big snakes, the one that has come furthest, if there is any. */
    method BigSnakeForward(b: Box, c: nat, lo: int, hi: int) returns (found: bool, xmid: int, ymid: int, ghost best: int)
      requires Ready() && Mine(b) && (hi - lo) % 2 == 0 && ForwardRow(b, c, lo, hi, fdiag[..], off)
      ensures BestForwardSnake(b, c, fdiag[..], off, lo, hi, lo - 1, best, xmid, ymid) && found == (best > 0)
      ensures found ==> ForwardPoint(b, c, xmid, ymid)
    {
      hide *;
      ghost var fd := fdiag[..];
      var most := 0;
      xmid, ymid := b.xoff, b.yoff;
      var d := hi;
      NoForwardSnake(b, c, lo, hi, fd, off, xmid, ymid);
      while d >= lo
        invariant d <= hi && (d - lo) % 2 == 0
        invariant BestForwardSnake(b, c, fd, off, lo, hi, d, most, xmid, ymid)
      {
        InRowIf(lo, hi, d);
        NextForwardSnake(b, c, fd, off, lo, hi, d, most, xmid, ymid);
        var x := fdiag[d + off];
        var better, v := BetterForward(b, c, d, x, most);
        if better {
          most, xmid, ymid := v, x, x - d;
        }
        d := d - 2;
      }
      found, best := most > 0, most;
      ForwardSnakeIsPoint(b, c, lo, hi, fd, off, d, most, xmid, ymid);
    }

    /** The same for the backward entries that begin big snakes. */
    method BigSnakeBackward(b: Box, c: nat, lo: int, hi: int) returns (found: bool, xmid: int, ymid: int, ghost best: int)
      requires Ready() && Mine(b) && (hi - lo) % 2 == 0 && BackwardRow(b, c, lo, hi, bdiag[..], off)
      ensures BestBackwardSnake(b, c, bdiag[..], off, lo, hi, lo - 1, best, xmid, ymid) && found == (best > 0)
      ensures found ==> BackwardPoint(b, c, xmid, ymid)
    {
      hide *;
      ghost var bd := bdiag[..];
      var most := 0;
      xmid, ymid := b.xoff, b.yoff;
      var d := hi;
      NoBackwardSnake(b, c, lo, hi, bd, off, xmid, ymid);
      while d >= lo
        invariant d <= hi && (d - lo) % 2 == 0
        invariant BestBackwardSnake(b, c, bd, off, lo, hi, d, most, xmid, ymid)
      {
        InRowIf(lo, hi, d);
        NextBackwardSnake(b, c, bd, off, lo, hi, d, most, xmid, ymid);
        var x := bdiag[d + off];
        var better, v := BetterBackward(b, c, d, x, most);
        if better {
          most, xmid, ymid := v, x, x - d;
        }
        d := d - 2;
      }
      found, best := most > 0, most;
      BackwardSnakeIsPoint(b, c, lo, hi, bd, off, d, most, xmid, ymid);
    }

    /** Of the forward entries, moved back into the box, one with the largest x + y. */
    method BestForward(b: Box, c: nat, lo: int, hi: int) returns (fxybest: int, fxbest: int)
      requires Ready() && Mine(b) && Trimmed(b) && 2 <= c && 2 * c < Distance(b)
      requires Limits(b, b.xoff - b.yoff, c, lo, hi) && ForwardRow(b, c, lo, hi, fdiag[..], off)
      ensures ForwardPoint(b, c, fxbest, fxybest - fxbest)
      ensures FurthestSum(b, fdiag[..], off, lo, hi, lo - 1, fxybest, fxbest)
    {
      hide Cost, Furthest, ForwardPoint, Limits, FurthestSum, ForwardRow, InRow;
      LimitsAroundCentre(b, b.xoff - b.yoff, c, lo, hi);
      LimitsParity(b, b.xoff - b.yoff, c, lo, hi);
      ghost var fd := fdiag[..];
      fxybest, fxbest := -1, 0;
      var d := hi;
      while d >= lo
        invariant d <= hi && (d - lo) % 2 == 0 && lo - 2 <= d
        invariant if d == hi then fxybest == -1 else ForwardPoint(b, c, fxbest, fxybest - fxbest)
        invariant d < hi ==> FurthestSum(b, fd, off, lo, hi, d, fxybest, fxbest)
      {
        ClippedForwardIsInside(b, c, d, lo, hi, fd, off);
        InRowIf(lo, hi, d);
        NextFurthestSum(b, fd, off, lo, hi, d, fxybest, fxbest);
        var x := Min(fdiag[d + off], b.xlim);
        var y := x - d;
        if b.ylim < y {
          x, y := b.ylim + d, b.ylim;
        }
        ForwardPointSum(b, c, x, y);
        if fxybest < x + y {
          fxybest, fxbest := x + y, x;
        }
        d := d - 2;
      }
      AllSummedForward(b, fd, off, lo, hi, d, fxybest, fxbest);
    }

    /** Of the backward entries, moved into the box, one with the smallest x + y. */
    method BestBackward(b: Box, c: nat, lo: int, hi: int) returns (bxybest: int, bxbest: int)
      requires Ready() && Mine(b) && Trimmed(b) && 2 <= c && 2 * c < Distance(b)
      requires Limits(b, b.xlim - b.ylim, c, lo, hi) && BackwardRow(b, c, lo, hi, bdiag[..], off)
      ensures BackwardPoint(b, c, bxbest, bxybest - bxbest)
      ensures EarliestSum(b, bdiag[..], off, lo, hi, lo - 1, bxybest, bxbest)
    {
      hide Cost, Earliest, BackwardPoint, Limits, EarliestSum, BackwardRow, InRow;
      LimitsAroundCentre(b, b.xlim - b.ylim, c, lo, hi);
      LimitsParity(b, b.xlim - b.ylim, c, lo, hi);
      ghost var bd := bdiag[..];
      bxybest, bxbest := INT_MAX, 0;
      var d := hi;
      while d >= lo
        invariant d <= hi && (d - lo) % 2 == 0 && lo - 2 <= d
        invariant if d == hi then bxybest == INT_MAX else BackwardPoint(b, c, bxbest, bxybest - bxbest)
        invariant d < hi ==> EarliestSum(b, bd, off, lo, hi, d, bxybest, bxbest)
      {
        ClippedBackwardIsInside(b, c, d, lo, hi, bd, off);
        InRowIf(lo, hi, d);
        NextEarliestSum(b, bd, off, lo, hi, d, bxybest, bxbest);
        var x := Max(b.xoff, bdiag[d + off]);
        var y := x - d;
        if y < b.yoff {
          x, y := b.yoff + d, b.yoff;
        }
        BackwardPointSum(b, c, x, y);
        if x + y < bxybest {
          bxybest, bxbest := x + y, x;
        }
        d := d - 2;
      }
      AllSummedBackward(b, bd, off, lo, hi, d, bxybest, bxbest);
    }

    /** Cut the box at a big snake, of the forward search if there is one, and else of the backward search. */
    method BigSnake(b: Box, c: nat, fmin: int, fmax: int, bmin: int, bmax: int) returns (found: bool, part: Partition)
      requires Ready() && Mine(b) && 1 <= c && 2 * c < Distance(b)
      requires Limits(b, b.xoff - b.yoff, c, fmin, fmax) && ForwardRow(b, c, fmin, fmax, fdiag[..], off)
      requires Limits(b, b.xlim - b.ylim, c, bmin, bmax) && BackwardRow(b, c, bmin, bmax, bdiag[..], off)
      ensures found ==> GivenUp(b, part, 2 * c - 1)
    {
      hide Cost, ForwardRow, BackwardRow, Limits, ForwardPoint, BackwardPoint, BestForwardSnake, BestBackwardSnake;
      LimitsParity(b, b.xoff - b.yoff, c, fmin, fmax);
      LimitsParity(b, b.xlim - b.ylim, c, bmin, bmax);
      var xmid, ymid;
      ghost var best;
      found, xmid, ymid, best := BigSnakeForward(b, c, fmin, fmax);
      part := Partition(xmid, ymid, true, false);
      if !found {
        found, xmid, ymid, best := BigSnakeBackward(b, c, bmin, bmax);
        part := Partition(xmid, ymid, false, true);
      }
    }

    /** Cut the box at the better of the two best points. */
    method Best(b: Box, c: nat, fmin: int, fmax: int, bmin: int, bmax: int) returns (part: Partition)
      requires Ready() && Mine(b) && Trimmed(b) && 2 <= c && 2 * c < Distance(b)
      requires Limits(b, b.xoff - b.yoff, c, fmin, fmax) && ForwardRow(b, c, fmin, fmax, fdiag[..], off)
      requires Limits(b, b.xlim - b.ylim, c, bmin, bmax) && BackwardRow(b, c, bmin, bmax, bdiag[..], off)
      ensures GivenUp(b, part, 2 * c - 1)
    {
      hide Cost, ForwardRow, BackwardRow, Limits, ForwardPoint, BackwardPoint, FurthestSum, EarliestSum;
      var fxybest, fxbest := BestForward(b, c, fmin, fmax);
      var bxybest, bxbest := BestBackward(b, c, bmin, bmax);
      if b.xlim + b.ylim - bxybest < fxybest - (b.xoff + b.yoff) {
        part := Partition(fxbest, fxybest - fxbest, true, false);
      } else {
        part := Partition(bxbest, bxybest - bxbest, false, true);
      }
    }

    lemma NeverCut(b: Box, part: Partition, cost: int)
      requires b.Valid() && Affordable(b)
      requires !(part.loMinimal && part.hiMinimal) ==> GivenUp(b, part, cost) && (cost >= 2 * tooExpensive - 1 || (heuristic && cost >= 401))
      ensures part.loMinimal && part.hiMinimal
    {
      hide Cost;
    }

    /**
     Find the midpoint of a shortest script for the box, or, when a heuristic stops
     the search, some point that cuts the box in two.  The cost returned is never 1.
     */
    method Diag(xoff: int, xlim: int, yoff: int, ylim: int, minimal: bool)
      returns (cost: int, part: Partition)
      requires Ready() && Trimmed(Box(xvec, yvec, xoff, xlim, yoff, ylim))
      modifies fdiag, bdiag
      ensures Inside(Box(xvec, yvec, xoff, xlim, yoff, ylim), part.xmid, part.ymid)
      ensures minimal ==> part.loMinimal && part.hiMinimal
      ensures part.loMinimal && part.hiMinimal ==> Halves(Box(xvec, yvec, xoff, xlim, yoff, ylim), part.xmid, part.ymid, cost)
      ensures !(part.loMinimal && part.hiMinimal) ==> GivenUp(Box(xvec, yvec, xoff, xlim, yoff, ylim), part, cost)
      ensures !(part.loMinimal && part.hiMinimal) ==> cost >= 2 * tooExpensive - 1 || (heuristic && cost >= 401)
      ensures !minimal ==> cost <= 2 * tooExpensive
      ensures cost != 1
    {
      hide Cost, ForwardRow, BackwardRow, Limits, Splits, Inside, Apart;
      var b := Box(xvec, yvec, xoff, xlim, yoff, ylim);
      var dmin, dmax := xoff - ylim, xlim - yoff;
      var fmid, bmid := xoff - yoff, xlim - ylim;
      var odd := (fmid - bmid) % 2 != 0;
      fdiag[fmid + off] := xoff;
      bdiag[bmid + off] := xlim;
      FirstRows(b, fdiag[..], bdiag[..], off);
      TrimmedBoxCostsTwo(b);
      var fmin, fmax, bmin, bmax := fmid, fmid, bmid, bmid;
      var c := 1;
      while true
        invariant 1 <= c && 2 * c - 1 <= Distance(b) && (!minimal ==> c <= tooExpensive)
        invariant Limits(b, fmid, c - 1, fmin, fmax) && ForwardRow(b, c - 1, fmin, fmax, fdiag[..], off)
        invariant Limits(b, bmid, c - 1, bmin, bmax) && BackwardRow(b, c - 1, bmin, bmax, bdiag[..], off)
        decreases Distance(b) - 2 * c
      {
        var met, x, y, forwardBig, backwardBig;
        ghost var fmin0, fmax0 := fmin, fmax;
        fmin, fmax, forwardBig, met, x, y := ForwardRound(b, c, fmin, fmax, bmin, bmax, odd);
        if met {
          SplitHalves(b, x, y, c, c - 1);
          return 2 * c - 1, Partition(x, y, true, true);
        }
        NotMetForward(b, c, fmin, fmax, fdiag[..], bmin, bmax, bdiag[..], off, odd);

        bmin, bmax, backwardBig, met, x, y := BackwardRound(b, c, bmin, bmax, fmin, fmax, odd);
        if met {
          SplitHalves(b, x, y, c, c);
          return 2 * c, Partition(x, y, true, true);
        }
        NotMetBackward(b, c, fmin, fmax, fdiag[..], bmin, bmax, bdiag[..], off, odd);

        if !minimal {
          if c > 200 && (forwardBig || backwardBig) && heuristic {
            var found;
            found, part := BigSnake(b, c, fmin, fmax, bmin, bmax);
            if found {
              return 2 * c - 1, part;
            }
          }
          if c >= tooExpensive {
            part := Best(b, c, fmin, fmax, bmin, bmax);
            return 2 * c - 1, part;
          }
        }
        c := c + 1;
      }
    }
  }
}
