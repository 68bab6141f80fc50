/**
 What the two diagonal-indexed vectors of `diag` hold, and why the searches that
 fill them cannot miss each other.

 Diagonal d is the set of points with x - y == d.  After c rounds the forward
 vector holds, for every second diagonal in reach, the furthest point on it that
 c edits can lead to; the backward vector holds the earliest point from which c
 edits lead to the end.
 */
module Diagonals {
  import opened Wrappers
  import opened EditGraph

  ghost function FromStart(b: Box, x: int, y: int): nat
    requires b.xoff <= x && b.yoff <= y
  {
    Cost(b, b.xoff, b.yoff, x, y)
  }

  ghost function ToEnd(b: Box, x: int, y: int): nat
    requires x <= b.xlim && y <= b.ylim
  {
    Cost(b, x, y, b.xlim, b.ylim)
  }

  /** x is as far along diagonal d as c edits from the start can lead inside the box. */
  ghost predicate Furthest(b: Box, c: int, d: int, x: int) {
    && b.xoff <= x && b.yoff <= x - d
    && FromStart(b, x, x - d) <= c
    && (x + 1 <= b.xlim && x + 1 - d <= b.ylim ==> c < FromStart(b, x + 1, x + 1 - d))
  }

  /** x is as early along diagonal d as c edits to the end allow inside the box. */
  ghost predicate Earliest(b: Box, c: int, d: int, x: int) {
    && x <= b.xlim && x - d <= b.ylim
    && ToEnd(b, x, x - d) <= c
    && (b.xoff <= x - 1 && b.yoff <= x - 1 - d ==> c < ToEnd(b, x - 1, x - 1 - d))
  }

  /** No point of the box on diagonal d can be joined to diagonal mid by c edits. */
  ghost predicate OutOfReach(b: Box, mid: int, c: int, d: int) {
    d < b.xoff - b.ylim || b.xlim - b.yoff < d || d < mid - c || mid + c < d
  }

  /** The diagonals lo, lo + 2, .., hi are those that c edits from diagonal mid can reach. */
  ghost predicate Limits(b: Box, mid: int, c: int, lo: int, hi: int) {
    var dmin, dmax := b.xoff - b.ylim, b.xlim - b.yoff;
    && (lo - mid - c) % 2 == 0 && (hi - mid - c) % 2 == 0
    && dmin <= lo && hi <= dmax && mid - c <= lo && hi <= mid + c
    && (lo == mid - c || lo <= dmin + 1)
    && (hi == mid + c || dmax - 1 <= hi)
  }

  /** Entry i of a vector belongs to diagonal i - off; those from lo to hi in steps of two are final. */
  ghost predicate ForwardRow(b: Box, c: int, lo: int, hi: int, fd: seq<int>, off: int) {
    && 0 <= lo - 1 + off && hi + 1 + off < |fd|
    && forall i :: lo + off <= i <= hi + off && (i - lo - off) % 2 == 0 ==> Furthest(b, c, i - off, fd[i])
  }

  ghost predicate BackwardRow(b: Box, c: int, lo: int, hi: int, bd: seq<int>, off: int) {
    && 0 <= lo - 1 + off && hi + 1 + off < |bd|
    && forall i :: lo + off <= i <= hi + off && (i - lo - off) % 2 == 0 ==> Earliest(b, c, i - off, bd[i])
  }

  // ----- Nothing in the box is missed

  lemma FurthestIsBound(b: Box, c: int, d: int, t: int, x: int)
    requires b.Valid() && Furthest(b, c, d, t)
    requires b.Has(x, x - d) && FromStart(b, x, x - d) <= c
    ensures x <= t
  {
    if t < x {
      UpDiagonal(b, b.xoff, b.yoff, t + 1, t + 1 - d, x - t - 1);
    }
  }

  lemma EarliestIsBound(b: Box, c: int, d: int, t: int, x: int)
    requires b.Valid() && Earliest(b, c, d, t)
    requires b.Has(x, x - d) && ToEnd(b, x, x - d) <= c
    ensures t <= x
  {
    if x < t {
      DownDiagonal(b, x, x - d, t - 1 - x, b.xlim, b.ylim);
    }
  }

  /** Costs of a point of the box bound how far its diagonal lies from the two centres. */
  lemma InReach(b: Box, x: int, y: int)
    requires b.Valid() && b.Has(x, y)
    ensures !OutOfReach(b, b.xoff - b.yoff, FromStart(b, x, y), x - y)
    ensures !OutOfReach(b, b.xlim - b.ylim, ToEnd(b, x, y), x - y)
    ensures (FromStart(b, x, y) + b.xoff - b.yoff - x + y) % 2 == 0
    ensures (ToEnd(b, x, y) + b.xlim - b.ylim - x + y) % 2 == 0
  {
    hide Cost;
    CostParity(b, b.xoff, b.yoff, x, y);
    CostParity(b, x, y, b.xlim, b.ylim);
    CostBounds(b, b.xoff, b.yoff, x, y);
    CostBounds(b, x, y, b.xlim, b.ylim);
  }

  // ----- One entry of a round

  /** What the forward search reads next to diagonal d: an entry, or the sentinel -1. */
  ghost predicate ForwardEntry(b: Box, c: int, d: int, t: int) {
    Furthest(b, c, d, t) || (t == -1 && OutOfReach(b, b.xoff - b.yoff, c, d))
  }

  ghost predicate BackwardEntry(b: Box, c: int, d: int, t: int, none: int) {
    Earliest(b, c, d, t) || (t == none && OutOfReach(b, b.xlim - b.ylim, c, d))
  }

  lemma ForwardEdit(b: Box, c: int, d: int, tlo: int, thi: int)
    requires b.Valid()
    requires ForwardEntry(b, c - 1, d - 1, tlo) && ForwardEntry(b, c - 1, d + 1, thi)
    requires tlo != -1 || thi != -1
    ensures var x := if tlo >= thi then tlo + 1 else thi;
            b.xoff <= x && b.yoff <= x - d && FromStart(b, x, x - d) <= c
  {
    if tlo >= thi {
      OneMore(b, b.xoff, b.yoff, tlo, tlo - (d - 1));
    } else {
      OneMore(b, b.xoff, b.yoff, thi, thi - (d + 1));
    }
  }

  /** After the snake the entry is the furthest point that c edits can reach. */
  lemma ForwardStep(b: Box, c: int, d: int, tlo: int, thi: int, x: int)
    requires b.Valid()
    requires ForwardEntry(b, c - 1, d - 1, tlo) && ForwardEntry(b, c - 1, d + 1, thi)
    requires tlo < x && thi <= x
    requires b.xoff <= x && b.yoff <= x - d && FromStart(b, x, x - d) <= c
    requires !b.Same(x, x - d)
    ensures Furthest(b, c, d, x)
  {
    hide Cost;
    var u, v := x + 1, x + 1 - d;
    if u <= b.xlim && v <= b.ylim && FromStart(b, u, v) <= c {
      var last := LastMove(b, b.xoff, b.yoff, u, v);
      if last.Delete? {
        InReach(b, u - 1, v);
        FurthestIsBound(b, c - 1, d - 1, tlo, u - 1);
      } else if last.Insert? {
        InReach(b, u, v - 1);
        FurthestIsBound(b, c - 1, d + 1, thi, u);
      }
    }
  }

  lemma BackwardEdit(b: Box, c: int, d: int, tlo: int, thi: int, none: int)
    requires b.Valid() && b.xlim < none
    requires BackwardEntry(b, c - 1, d - 1, tlo, none) && BackwardEntry(b, c - 1, d + 1, thi, none)
    requires tlo != none || thi != none
    ensures var x := if tlo < thi then tlo else thi - 1;
            x <= b.xlim && x - d <= b.ylim && ToEnd(b, x, x - d) <= c
  {
    if tlo < thi {
      Triangle(b, tlo, tlo - d, tlo, tlo - d + 1, b.xlim, b.ylim);
    } else {
      Triangle(b, thi - 1, thi - 1 - d, thi, thi - 1 - d, b.xlim, b.ylim);
    }
  }

  lemma BackwardStep(b: Box, c: int, d: int, tlo: int, thi: int, none: int, x: int)
    requires b.Valid() && b.xlim < none
    requires BackwardEntry(b, c - 1, d - 1, tlo, none) && BackwardEntry(b, c - 1, d + 1, thi, none)
    requires x <= tlo && x < thi
    requires x <= b.xlim && x - d <= b.ylim && ToEnd(b, x, x - d) <= c
    requires !b.Same(x - 1, x - d - 1)
    ensures Earliest(b, c, d, x)
  {
    hide Cost;
    var u, v := x - 1, x - 1 - d;
    if b.xoff <= u && b.yoff <= v && ToEnd(b, u, v) <= c {
      FirstMove(b, u, v, b.xlim, b.ylim);
      if ToEnd(b, u, v) == 1 + ToEnd(b, u + 1, v) {
        InReach(b, u + 1, v);
        EarliestIsBound(b, c - 1, d + 1, thi, u + 1);
      } else {
        InReach(b, u, v + 1);
        EarliestIsBound(b, c - 1, d - 1, tlo, u);
      }
    }
  }

  // ----- The meeting point

  /** Before the searches can meet, their entries on a common diagonal lie inside the box. */
  lemma EntriesAreInside(b: Box, cf: nat, cb: nat, d: int, fx: int, bx: int)
    requires b.Valid() && cf + cb <= Distance(b)
    requires !OutOfReach(b, b.xoff - b.yoff, cf, d) && !OutOfReach(b, b.xlim - b.ylim, cb, d)
    requires Furthest(b, cf, d, fx) && Earliest(b, cb, d, bx)
    ensures b.Has(fx, fx - d) && b.Has(bx, bx - d)
  {
    if b.xlim < fx || b.ylim < fx - d {
      BeyondFarSides(b, fx, fx - d);
    }
    if bx < b.xoff || bx - d < b.yoff {
      BeyondNearSides(b, bx, bx - d);
    }
  }

  /** When they meet, either entry splits a shortest script. */
  lemma Meeting(b: Box, cf: nat, cb: nat, d: int, fx: int, bx: int)
    requires b.Valid() && cf + cb <= Distance(b)
    requires !OutOfReach(b, b.xoff - b.yoff, cf, d) && !OutOfReach(b, b.xlim - b.ylim, cb, d)
    requires Furthest(b, cf, d, fx) && Earliest(b, cb, d, bx) && bx <= fx
    ensures Distance(b) == cf + cb
    ensures b.Has(fx, fx - d) && FromStart(b, fx, fx - d) == cf && ToEnd(b, fx, fx - d) == cb
    ensures b.Has(bx, bx - d) && FromStart(b, bx, bx - d) == cf && ToEnd(b, bx, bx - d) == cb
  {
    hide Cost;
    EntriesAreInside(b, cf, cb, d, fx, bx);
    DownDiagonal(b, bx, bx - d, fx - bx, b.xlim, b.ylim);
    UpDiagonal(b, b.xoff, b.yoff, bx, bx - d, fx - bx);
    Triangle(b, b.xoff, b.yoff, fx, fx - d, b.xlim, b.ylim);
    Triangle(b, b.xoff, b.yoff, bx, bx - d, b.xlim, b.ylim);
  }

  /** The point splits a shortest script into cf edits before it and cb after it. */
  ghost predicate Splits(b: Box, x: int, y: int, cf: int, cb: int) {
    b.Has(x, y) && FromStart(b, x, y) == cf && ToEnd(b, x, y) == cb
  }

  lemma MeetBackwardRow(b: Box, cf: nat, lo: int, hi: int, d: int, x: int, cb: nat, blo: int, bhi: int, bd: seq<int>, off: int)
    requires b.Valid() && cf + cb <= Distance(b)
    requires Limits(b, b.xoff - b.yoff, cf, lo, hi) && lo <= d <= hi && Furthest(b, cf, d, x)
    requires Limits(b, b.xlim - b.ylim, cb, blo, bhi) && BackwardRow(b, cb, blo, bhi, bd, off)
    requires blo <= d <= bhi && (d - blo) % 2 == 0 && bd[d + off] <= x
    ensures Splits(b, x, x - d, cf, cb) && Distance(b) == cf + cb
  {
    assert Earliest(b, cb, d + off - off, bd[d + off]);
    Meeting(b, cf, cb, d, x, bd[d + off]);
  }

  lemma MeetForwardRow(b: Box, cf: nat, flo: int, fhi: int, fd: seq<int>, off: int, cb: nat, lo: int, hi: int, d: int, x: int)
    requires b.Valid() && cf + cb <= Distance(b)
    requires Limits(b, b.xlim - b.ylim, cb, lo, hi) && lo <= d <= hi && Earliest(b, cb, d, x)
    requires Limits(b, b.xoff - b.yoff, cf, flo, fhi) && ForwardRow(b, cf, flo, fhi, fd, off)
    requires flo <= d <= fhi && (d - flo) % 2 == 0 && x <= fd[d + off]
    ensures Splits(b, x, x - d, cf, cb) && Distance(b) == cf + cb
  {
    assert Furthest(b, cf, d + off - off, fd[d + off]);
    Meeting(b, cf, cb, d, fd[d + off], x);
  }

  /** On no diagonal of both rows has the forward search caught up with the backward one. */
  ghost predicate Apart(flo: int, fhi: int, fd: seq<int>, blo: int, bhi: int, bd: seq<int>, off: int) {
    && 0 <= flo + off && fhi + off < |fd| && 0 <= blo + off && bhi + off < |bd|
    && forall i :: flo + off <= i <= fhi + off && (i - flo - off) % 2 == 0 && blo + off <= i <= bhi + off ==> fd[i] < bd[i]
  }

  lemma ReachIsInRow(b: Box, mid: int, c: int, lo: int, hi: int, d: int)
    requires Limits(b, mid, c, lo, hi) && !OutOfReach(b, mid, c, d) && (d - mid - c) % 2 == 0
    ensures lo <= d <= hi && (d - lo) % 2 == 0
  {
  }

  lemma ForwardRowCovers(b: Box, c: nat, lo: int, hi: int, fd: seq<int>, off: int, x: int, y: int)
    requires b.Valid() && b.Has(x, y) && FromStart(b, x, y) == c
    requires Limits(b, b.xoff - b.yoff, c, lo, hi) && ForwardRow(b, c, lo, hi, fd, off)
    ensures lo <= x - y <= hi && (x - y - lo) % 2 == 0 && x <= fd[x - y + off]
  {
    var d := x - y;
    InReach(b, x, y);
    ReachIsInRow(b, b.xoff - b.yoff, c, lo, hi, d);
    assert Furthest(b, c, d + off - off, fd[d + off]);
    FurthestIsBound(b, c, d, fd[d + off], x);
  }

  lemma BackwardRowCovers(b: Box, c: nat, lo: int, hi: int, bd: seq<int>, off: int, x: int, y: int)
    requires b.Valid() && b.Has(x, y) && ToEnd(b, x, y) == c
    requires Limits(b, b.xlim - b.ylim, c, lo, hi) && BackwardRow(b, c, lo, hi, bd, off)
    ensures lo <= x - y <= hi && (x - y - lo) % 2 == 0 && bd[x - y + off] <= x
  {
    var d := x - y;
    InReach(b, x, y);
    ReachIsInRow(b, b.xlim - b.ylim, c, lo, hi, d);
    assert Earliest(b, c, d + off - off, bd[d + off]);
    EarliestIsBound(b, c, d, bd[d + off], x);
  }

  /** If they have not met, the script is longer than the edits made so far. */
  lemma ApartMeansLonger(b: Box, cf: nat, flo: int, fhi: int, fd: seq<int>,
                         cb: nat, blo: int, bhi: int, bd: seq<int>, off: int)
    requires b.Valid() && cf + cb <= Distance(b)
    requires (b.xoff - b.yoff + cf - (b.xlim - b.ylim + cb)) % 2 == 0
    requires Limits(b, b.xoff - b.yoff, cf, flo, fhi) && ForwardRow(b, cf, flo, fhi, fd, off)
    requires Limits(b, b.xlim - b.ylim, cb, blo, bhi) && BackwardRow(b, cb, blo, bhi, bd, off)
    requires Apart(flo, fhi, fd, blo, bhi, bd, off)
    ensures cf + cb + 2 <= Distance(b)
  {
    hide Cost, Furthest, Earliest, Limits;
    if Distance(b) == cf + cb {
      var x, y := PointOnRoute(b, b.xoff, b.yoff, b.xlim, b.ylim, cf);
      ForwardRowCovers(b, cf, flo, fhi, fd, off, x, y);
      BackwardRowCovers(b, cb, blo, bhi, bd, off, x, y);
    }
    CostParity(b, b.xoff, b.yoff, b.xlim, b.ylim);
  }

  // ----- Rounds

  lemma FirstEntries(b: Box)
    requires b.Valid() && b.xoff < b.xlim && b.yoff < b.ylim
    requires !b.Same(b.xoff, b.yoff) && !b.Same(b.xlim - 1, b.ylim - 1)
    ensures Furthest(b, 0, b.xoff - b.yoff, b.xoff) && Limits(b, b.xoff - b.yoff, 0, b.xoff - b.yoff, b.xoff - b.yoff)
    ensures Earliest(b, 0, b.xlim - b.ylim, b.xlim) && Limits(b, b.xlim - b.ylim, 0, b.xlim - b.ylim, b.xlim - b.ylim)
  {
  }

  lemma LimitsAroundCentre(b: Box, mid: int, c: nat, lo: int, hi: int)
    requires Limits(b, mid, c, lo, hi)
    requires b.xoff - b.ylim < mid < b.xlim - b.yoff
    ensures lo <= hi
  {
  }

  /** All that a round reads: every second entry from lo - 1 to hi + 1 comes from round c - 1. */
  ghost predicate ForwardOpen(b: Box, c: int, lo: int, hi: int, fd: seq<int>, off: int) {
    && 0 <= lo - 1 + off && hi + 1 + off < |fd|
    && forall i :: lo - 1 + off <= i <= hi + 1 + off && (i - lo - off) % 2 != 0 ==> ForwardEntry(b, c - 1, i - off, fd[i])
  }

  ghost predicate BackwardOpen(b: Box, c: int, lo: int, hi: int, bd: seq<int>, off: int, none: int) {
    && 0 <= lo - 1 + off && hi + 1 + off < |bd|
    && forall i :: lo - 1 + off <= i <= hi + 1 + off && (i - lo - off) % 2 != 0 ==> BackwardEntry(b, c - 1, i - off, bd[i], none)
  }

  /** The range of the next round: one diagonal wider on each side, except at the edges of the box. */
  function Widen(lo: int, edge: int): int { if lo > edge then lo - 1 else lo + 1 }

  function WidenUp(hi: int, edge: int): int { if hi < edge then hi + 1 else hi - 1 }

  lemma WidenedLimits(b: Box, mid: int, c: nat, lo: int, hi: int)
    requires Limits(b, mid, c, lo, hi) && b.xoff - b.ylim < mid < b.xlim - b.yoff
    ensures Limits(b, mid, c + 1, Widen(lo, b.xoff - b.ylim), WidenUp(hi, b.xlim - b.yoff))
  {
  }

  /** Entries of the last round, and sentinels beside them, are all that the next round reads. */
  lemma OpenFromRow(b: Box, c: nat, lo0: int, hi0: int, before: seq<int>, fd: seq<int>, off: int)
    requires Limits(b, b.xoff - b.yoff, c - 1, lo0, hi0) && ForwardRow(b, c - 1, lo0, hi0, before, off)
    requires lo0 <= hi0 && |before| == |fd|
    requires forall i :: lo0 + off <= i <= hi0 + off ==> fd[i] == before[i]
    requires b.xoff - b.ylim + off >= 1 && b.xlim - b.yoff + off + 1 < |fd|
    requires lo0 > b.xoff - b.ylim ==> fd[lo0 - 2 + off] == -1
    requires hi0 < b.xlim - b.yoff ==> fd[hi0 + 2 + off] == -1
    ensures ForwardOpen(b, c, Widen(lo0, b.xoff - b.ylim), WidenUp(hi0, b.xlim - b.yoff), fd, off)
  {
    hide Cost, Furthest, Earliest;
    var lo, hi := Widen(lo0, b.xoff - b.ylim), WidenUp(hi0, b.xlim - b.yoff);
    assert Limits(b, b.xoff - b.yoff, c - 1, lo0, hi0);
    hide Limits, OutOfReach, Widen, WidenUp;
    forall i | lo - 1 + off <= i <= hi + 1 + off && (i - lo - off) % 2 != 0
      ensures ForwardEntry(b, c - 1, i - off, fd[i])
    {
      ReadInRound(b, b.xoff - b.yoff, c, lo0, hi0, i - off);
    }
    WidenedBounds(b, lo0, hi0);
  }

  /** A diagonal read in a round has an entry of the round before, or is out of reach just beyond that. */
  lemma ReadInRound(b: Box, mid: int, c: int, lo0: int, hi0: int, d: int)
    requires Limits(b, mid, c - 1, lo0, hi0) && lo0 <= hi0
    requires var lo, hi := Widen(lo0, b.xoff - b.ylim), WidenUp(hi0, b.xlim - b.yoff);
             lo - 1 <= d <= hi + 1 && (d - lo) % 2 != 0
    ensures (lo0 <= d <= hi0 && (d - lo0) % 2 == 0)
            || (OutOfReach(b, mid, c - 1, d) && ((d == lo0 - 2 && lo0 > b.xoff - b.ylim) || (d == hi0 + 2 && hi0 < b.xlim - b.yoff)))
  {
  }

  lemma WidenedBounds(b: Box, lo0: int, hi0: int)
    ensures lo0 - 1 <= Widen(lo0, b.xoff - b.ylim) && WidenUp(hi0, b.xlim - b.yoff) <= hi0 + 1
    ensures b.xoff - b.ylim <= lo0 ==> b.xoff - b.ylim <= Widen(lo0, b.xoff - b.ylim)
    ensures hi0 <= b.xlim - b.yoff ==> WidenUp(hi0, b.xlim - b.yoff) <= b.xlim - b.yoff
  {
  }

  lemma OpenFromRowBack(b: Box, c: nat, lo0: int, hi0: int, before: seq<int>, bd: seq<int>, off: int, none: int)
    requires Limits(b, b.xlim - b.ylim, c - 1, lo0, hi0) && BackwardRow(b, c - 1, lo0, hi0, before, off)
    requires lo0 <= hi0 && |before| == |bd|
    requires forall i :: lo0 + off <= i <= hi0 + off ==> bd[i] == before[i]
    requires b.xoff - b.ylim + off >= 1 && b.xlim - b.yoff + off + 1 < |bd|
    requires lo0 > b.xoff - b.ylim ==> bd[lo0 - 2 + off] == none
    requires hi0 < b.xlim - b.yoff ==> bd[hi0 + 2 + off] == none
    ensures BackwardOpen(b, c, Widen(lo0, b.xoff - b.ylim), WidenUp(hi0, b.xlim - b.yoff), bd, off, none)
  {
    hide Cost, Furthest, Earliest;
    var lo, hi := Widen(lo0, b.xoff - b.ylim), WidenUp(hi0, b.xlim - b.yoff);
    assert Limits(b, b.xlim - b.ylim, c - 1, lo0, hi0);
    hide Limits, OutOfReach, Widen, WidenUp;
    forall i | lo - 1 + off <= i <= hi + 1 + off && (i - lo - off) % 2 != 0
      ensures BackwardEntry(b, c - 1, i - off, bd[i], none)
    {
      ReadInRound(b, b.xlim - b.ylim, c, lo0, hi0, i - off);
    }
    WidenedBounds(b, lo0, hi0);
  }

  /** Writing the entry of diagonal d leaves the entries it was computed from alone. */
  lemma ForwardWritten(b: Box, c: nat, lo: int, hi: int, d: int, x: int, fd: seq<int>, off: int)
    requires ForwardOpen(b, c, lo, hi, fd, off) && ForwardRow(b, c, d + 2, hi, fd, off)
    requires lo <= d <= hi && (d - lo) % 2 == 0 && Furthest(b, c, d, x)
    ensures ForwardOpen(b, c, lo, hi, fd[d + off := x], off) && ForwardRow(b, c, d, hi, fd[d + off := x], off)
  {
  }

  lemma BackwardWritten(b: Box, c: nat, lo: int, hi: int, d: int, x: int, bd: seq<int>, off: int, none: int)
    requires BackwardOpen(b, c, lo, hi, bd, off, none) && BackwardRow(b, c, d + 2, hi, bd, off)
    requires lo <= d <= hi && (d - lo) % 2 == 0 && Earliest(b, c, d, x)
    ensures BackwardOpen(b, c, lo, hi, bd[d + off := x], off, none) && BackwardRow(b, c, d, hi, bd[d + off := x], off)
  {
  }

  /** Before the first diagonal of a round nothing is final and nothing has met. */
  lemma NothingWritten(b: Box, c: int, lo: int, hi: int, fd: seq<int>, blo: int, bhi: int, bd: seq<int>, off: int)
    requires lo <= hi && ForwardOpen(b, c, lo, hi, fd, off)
    requires 0 <= blo + off && bhi + off < |bd|
    ensures ForwardRow(b, c, hi + 2, hi, fd, off) && Apart(hi + 2, hi, fd, blo, bhi, bd, off)
  {
  }

  lemma NothingWrittenBack(b: Box, c: int, lo: int, hi: int, bd: seq<int>, flo: int, fhi: int, fd: seq<int>, off: int, none: int)
    requires lo <= hi && BackwardOpen(b, c, lo, hi, bd, off, none)
    requires 0 <= flo + off && fhi + off < |fd|
    ensures BackwardRow(b, c, hi + 2, hi, bd, off) && Apart(flo, fhi, fd, hi + 2, hi, bd, off)
  {
  }

  lemma LimitsParity(b: Box, mid: int, c: int, lo: int, hi: int)
    requires Limits(b, mid, c, lo, hi)
    ensures (hi - lo) % 2 == 0
  {
  }

  /** With an odd difference of the centres, rows c and c - 1 share diagonals; otherwise rows c and c do. */
  lemma RowsShareParity(b: Box, cf: int, flo: int, fhi: int, cb: int, blo: int, bhi: int, d: int)
    requires Limits(b, b.xoff - b.yoff, cf, flo, fhi) && Limits(b, b.xlim - b.ylim, cb, blo, bhi)
    requires (b.xoff - b.yoff + cf - (b.xlim - b.ylim + cb)) % 2 == 0
    ensures (d - flo) % 2 == (d - blo) % 2
  {
  }

  lemma ApartForwardWritten(hi: int, fd: seq<int>, blo: int, bhi: int, bd: seq<int>, off: int, d: int, x: int)
    requires 0 <= d + off && d <= hi && hi + off < |fd| && 0 <= blo + off && bhi + off < |bd|
    requires Apart(d + 2, hi, fd, blo, bhi, bd, off)
    requires blo <= d <= bhi ==> x < bd[d + off]
    ensures Apart(d, hi, fd[d + off := x], blo, bhi, bd, off)
  {
  }

  lemma ApartBackwardWritten(flo: int, fhi: int, fd: seq<int>, hi: int, bd: seq<int>, off: int, d: int, x: int)
    requires 0 <= d + off && d <= hi && hi + off < |bd| && 0 <= flo + off && fhi + off < |fd|
    requires Apart(flo, fhi, fd, d + 2, hi, bd, off) && (d - flo) % 2 == 0
    requires flo <= d <= fhi ==> fd[d + off] < x
    ensures Apart(flo, fhi, fd, d, hi, bd[d + off := x], off)
  {
  }

  lemma OpenNeighbours(b: Box, c: int, lo: int, hi: int, fd: seq<int>, off: int, d: int)
    requires b.Valid() && b.xoff - b.ylim < b.xoff - b.yoff < b.xlim - b.yoff && 1 <= c
    requires Limits(b, b.xoff - b.yoff, c, lo, hi) && ForwardOpen(b, c, lo, hi, fd, off)
    requires lo <= d <= hi && (d - lo) % 2 == 0
    ensures ForwardEntry(b, c - 1, d - 1, fd[d - 1 + off]) && ForwardEntry(b, c - 1, d + 1, fd[d + 1 + off])
    ensures fd[d - 1 + off] != -1 || fd[d + 1 + off] != -1
  {
    assert ForwardEntry(b, c - 1, d - 1 + off - off, fd[d - 1 + off]);
    assert ForwardEntry(b, c - 1, d + 1 + off - off, fd[d + 1 + off]);
  }

  lemma OpenNeighboursBack(b: Box, c: int, lo: int, hi: int, bd: seq<int>, off: int, none: int, d: int)
    requires b.Valid() && b.xoff - b.ylim < b.xlim - b.ylim < b.xlim - b.yoff && 1 <= c && b.xlim < none
    requires Limits(b, b.xlim - b.ylim, c, lo, hi) && BackwardOpen(b, c, lo, hi, bd, off, none)
    requires lo <= d <= hi && (d - lo) % 2 == 0
    ensures BackwardEntry(b, c - 1, d - 1, bd[d - 1 + off], none) && BackwardEntry(b, c - 1, d + 1, bd[d + 1 + off], none)
    ensures bd[d - 1 + off] != none || bd[d + 1 + off] != none
  {
    assert BackwardEntry(b, c - 1, d - 1 + off - off, bd[d - 1 + off], none);
    assert BackwardEntry(b, c - 1, d + 1 + off - off, bd[d + 1 + off], none);
  }

  // ----- Giving up halfway

  /** (x, y) lies in the box and is neither of its two corners, so it cuts the box in two. */
  ghost predicate Inside(b: Box, x: int, y: int) {
    b.Has(x, y) && (b.xoff < x || b.yoff < y) && (x < b.xlim || y < b.ylim)
  }

  /** A point that c edits can lead to, and no corner. */
  ghost predicate ForwardPoint(b: Box, c: nat, x: int, y: int) {
    Inside(b, x, y) && FromStart(b, x, y) <= c
  }

  /** A point from which c edits can lead to the end, and no corner. */
  ghost predicate BackwardPoint(b: Box, c: nat, x: int, y: int) {
    Inside(b, x, y) && ToEnd(b, x, y) <= c
  }

  lemma ForwardPointSum(b: Box, c: nat, x: int, y: int)
    requires b.Valid() && ForwardPoint(b, c, x, y)
    ensures 0 <= x + y <= |b.xv| + |b.yv|
  {
  }

  lemma BackwardPointSum(b: Box, c: nat, x: int, y: int)
    requires b.Valid() && BackwardPoint(b, c, x, y)
    ensures 0 <= x + y <= |b.xv| + |b.yv|
  {
  }

  lemma ForwardEntryClipped(b: Box, c: int, d: int, fx: int)
    requires b.Valid() && b.xoff < b.xlim && b.yoff < b.ylim
    requires 2 <= c && 2 * c < Distance(b)
    requires b.xoff - b.ylim <= d <= b.xlim - b.yoff && Furthest(b, c, d, fx)
    ensures var x := Min(fx, b.xlim);
            if b.ylim < x - d then Inside(b, b.ylim + d, b.ylim) else Inside(b, x, x - d)
  {
    CostBounds(b, b.xoff, b.yoff, b.xoff + 1, b.yoff + 1);
    if b.xlim <= fx || b.ylim <= fx - d {
      BeyondFarSides(b, fx, fx - d);
    }
  }

  lemma BackwardEntryClipped(b: Box, c: int, d: int, bx: int)
    requires b.Valid() && b.xoff < b.xlim && b.yoff < b.ylim
    requires 2 <= c && 2 * c < Distance(b)
    requires b.xoff - b.ylim <= d <= b.xlim - b.yoff && Earliest(b, c, d, bx)
    ensures var x := Max(b.xoff, bx);
            if x - d < b.yoff then Inside(b, b.yoff + d, b.yoff) else Inside(b, x, x - d)
  {
    CostBounds(b, b.xlim - 1, b.ylim - 1, b.xlim, b.ylim);
    if bx <= b.xoff || bx - d <= b.yoff {
      BeyondNearSides(b, bx, bx - d);
    }
  }

  ghost predicate InRow(lo: int, hi: int, d: int) {
    lo <= d <= hi && (d - lo) % 2 == 0
  }

  lemma InRowIf(lo: int, hi: int, d: int)
    requires lo <= d <= hi && (d - lo) % 2 == 0
    ensures InRow(lo, hi, d)
  {
  }

  lemma ForwardRowReached(b: Box, c: nat, lo: int, hi: int, fd: seq<int>, off: int, d: int)
    requires ForwardRow(b, c, lo, hi, fd, off) && InRow(lo, hi, d)
    ensures var x := fd[d + off]; b.xoff <= x && b.yoff <= x - d && FromStart(b, x, x - d) <= c
  {
    hide Cost;
    assert Furthest(b, c, d + off - off, fd[d + off]);
  }

  lemma BackwardRowReached(b: Box, c: nat, lo: int, hi: int, bd: seq<int>, off: int, d: int)
    requires BackwardRow(b, c, lo, hi, bd, off) && InRow(lo, hi, d)
    ensures var x := bd[d + off]; x <= b.xlim && x - d <= b.ylim && ToEnd(b, x, x - d) <= c
  {
    hide Cost;
    assert Earliest(b, c, d + off - off, bd[d + off]);
  }

  /** The entry of diagonal d, moved back along the diagonal to the far sides of the box if it lies beyond. */
  function ClippedForward(b: Box, fd: seq<int>, off: int, d: int): int {
    if !(0 <= d + off < |fd|) then 0
    else
      var x := Min(fd[d + off], b.xlim);
      if b.ylim < x - d then b.ylim + d else x
  }

  function ClippedBackward(b: Box, bd: seq<int>, off: int, d: int): int {
    if !(0 <= d + off < |bd|) then 0
    else
      var x := Max(b.xoff, bd[d + off]);
      if x - d < b.yoff then b.yoff + d else x
  }

  /** A final entry of a row, moved into the box along its diagonal, is not a corner, and costs no more than before. */
  lemma ClippedForwardIsInside(b: Box, c: nat, d: int, lo: int, hi: int, fd: seq<int>, off: int)
    requires b.Valid() && b.xoff < b.xlim && b.yoff < b.ylim && 2 <= c && 2 * c < Distance(b)
    requires Limits(b, b.xoff - b.yoff, c, lo, hi) && ForwardRow(b, c, lo, hi, fd, off)
    requires lo <= d <= hi && (d - lo) % 2 == 0
    ensures 0 <= d + off < |fd|
    ensures var x := ClippedForward(b, fd, off, d);
            ForwardPoint(b, c, x, x - d)
  {
    hide Cost, Furthest, Inside;
    assert Furthest(b, c, d + off - off, fd[d + off]);
    ForwardEntryClipped(b, c, d, fd[d + off]);
    ForwardRowReached(b, c, lo, hi, fd, off, d);
    var x := ClippedForward(b, fd, off, d);
    UpDiagonal(b, b.xoff, b.yoff, x, x - d, fd[d + off] - x);
  }

  lemma ClippedBackwardIsInside(b: Box, c: nat, d: int, lo: int, hi: int, bd: seq<int>, off: int)
    requires b.Valid() && b.xoff < b.xlim && b.yoff < b.ylim && 2 <= c && 2 * c < Distance(b)
    requires Limits(b, b.xlim - b.ylim, c, lo, hi) && BackwardRow(b, c, lo, hi, bd, off)
    requires lo <= d <= hi && (d - lo) % 2 == 0
    ensures 0 <= d + off < |bd|
    ensures var x := ClippedBackward(b, bd, off, d);
            BackwardPoint(b, c, x, x - d)
  {
    hide Cost, Earliest, Inside;
    assert Earliest(b, c, d + off - off, bd[d + off]);
    BackwardEntryClipped(b, c, d, bd[d + off]);
    BackwardRowReached(b, c, lo, hi, bd, off, d);
    var x := ClippedBackward(b, bd, off, d);
    DownDiagonal(b, bd[d + off], bd[d + off] - d, x - bd[d + off], b.xlim, b.ylim);
  }

  /** A point that costs something on either side is not a corner. */
  lemma SplitIsInside(b: Box, x: int, y: int)
    requires b.Valid() && b.Has(x, y) && 0 < FromStart(b, x, y) && 0 < ToEnd(b, x, y)
    ensures Inside(b, x, y)
  {
  }

  /** What `diag` assumes of its box: nonempty on both sides, first and last lines differ. */
  ghost predicate Trimmed(b: Box) {
    && b.Valid() && b.xoff < b.xlim && b.yoff < b.ylim
    && !b.Same(b.xoff, b.yoff) && !b.Same(b.xlim - 1, b.ylim - 1)
  }

  /** The point cuts the box into two whose distances add up to its own, which is the cost. */
  ghost predicate Halves(b: Box, x: int, y: int, cost: int)
    requires b.Valid()
  {
    && b.Has(x, y)
    && Distance(b) == cost
    && Distance(b.(xlim := x, ylim := y)) + Distance(b.(xoff := x, yoff := y)) == cost
  }

  lemma SplitHalves(b: Box, x: int, y: int, cf: int, cb: int)
    requires b.Valid() && Splits(b, x, y, cf, cb) && Distance(b) == cf + cb && 2 <= cf + cb && 0 < cf && 0 < cb + (cf - 1)
    requires 0 < cb
    ensures Halves(b, x, y, cf + cb) && Inside(b, x, y)
  {
    SplitIsInside(b, x, y);
    SameCost(b, b.(xlim := x, ylim := y), b.xoff, b.yoff, x, y);
    SameCost(b, b.(xoff := x, yoff := y), x, y, b.xlim, b.ylim);
  }

  lemma FirstRows(b: Box, fd: seq<int>, bd: seq<int>, off: int)
    requires Trimmed(b)
    requires 1 <= b.xoff - b.ylim + off && b.xlim - b.yoff + off + 1 < |fd| && |fd| == |bd|
    requires fd[b.xoff - b.yoff + off] == b.xoff && bd[b.xlim - b.ylim + off] == b.xlim
    ensures Limits(b, b.xoff - b.yoff, 0, b.xoff - b.yoff, b.xoff - b.yoff)
    ensures ForwardRow(b, 0, b.xoff - b.yoff, b.xoff - b.yoff, fd, off)
    ensures Limits(b, b.xlim - b.ylim, 0, b.xlim - b.ylim, b.xlim - b.ylim)
    ensures BackwardRow(b, 0, b.xlim - b.ylim, b.xlim - b.ylim, bd, off)
  {
    FirstEntries(b);
  }

  lemma NotMetForward(b: Box, c: nat, flo: int, fhi: int, fd: seq<int>, blo: int, bhi: int, bd: seq<int>, off: int, odd: bool)
    requires Trimmed(b) && 1 <= c && 2 * c - 1 <= Distance(b)
    requires odd == ((b.xoff - b.yoff - (b.xlim - b.ylim)) % 2 != 0)
    requires Limits(b, b.xoff - b.yoff, c, flo, fhi) && ForwardRow(b, c, flo, fhi, fd, off)
    requires Limits(b, b.xlim - b.ylim, c - 1, blo, bhi) && BackwardRow(b, c - 1, blo, bhi, bd, off)
    requires odd ==> Apart(flo, fhi, fd, blo, bhi, bd, off)
    ensures 2 * c <= Distance(b)
  {
    hide Cost, Furthest, Earliest, ForwardRow, BackwardRow, Limits, Apart;
    if odd {
      ApartMeansLonger(b, c, flo, fhi, fd, c - 1, blo, bhi, bd, off);
    } else {
      CostParity(b, b.xoff, b.yoff, b.xlim, b.ylim);
    }
  }

  lemma NotMetBackward(b: Box, c: nat, flo: int, fhi: int, fd: seq<int>, blo: int, bhi: int, bd: seq<int>, off: int, odd: bool)
    requires Trimmed(b) && 1 <= c && 2 * c <= Distance(b)
    requires odd == ((b.xoff - b.yoff - (b.xlim - b.ylim)) % 2 != 0)
    requires Limits(b, b.xoff - b.yoff, c, flo, fhi) && ForwardRow(b, c, flo, fhi, fd, off)
    requires Limits(b, b.xlim - b.ylim, c, blo, bhi) && BackwardRow(b, c, blo, bhi, bd, off)
    requires !odd ==> Apart(flo, fhi, fd, blo, bhi, bd, off)
    ensures 2 * c + 1 <= Distance(b)
  {
    hide Cost, Furthest, Earliest, ForwardRow, BackwardRow, Limits, Apart;
    if odd {
      CostParity(b, b.xoff, b.yoff, b.xlim, b.ylim);
    } else {
      ApartMeansLonger(b, c, flo, fhi, fd, c, blo, bhi, bd, off);
    }
  }
}
