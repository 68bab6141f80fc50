/**
 The edit graph that the line differ searches.

 A point (x, y) means "x lines of the first file and y lines of the second are
 behind us".  Deleting a line goes from (x, y) to (x + 1, y), inserting one goes
 to (x, y + 1), and keeping a line, allowed only where the two lines have the
 same equivalence code, goes to (x + 1, y + 1) for free.  The number of lines
 inserted or deleted on a shortest route is `Cost`.

 The search of analyze.c steps outside the box it was given, where no line
 matches.  So the graph covers all integer points, and only `Same` is limited to
 the box.
 */
module EditGraph {
  import opened Wrappers

  datatype Box = Box(xv: seq<int>, yv: seq<int>, xoff: int, xlim: int, yoff: int, ylim: int) {
    ghost predicate Valid() {
      0 <= xoff <= xlim <= |xv| && 0 <= yoff <= ylim <= |yv|
    }

    ghost predicate Has(x: int, y: int) {
      xoff <= x <= xlim && yoff <= y <= ylim
    }

    /** Line x of the first file and line y of the second may be paired. */
    predicate Same(x: int, y: int) {
      && xoff <= x < xlim && yoff <= y < ylim
      && 0 <= x < |xv| && 0 <= y < |yv| && xv[x] == yv[y]
    }
  }

  /** The fewest insertions and deletions that lead from (x0, y0) to (x1, y1). */
  ghost function Cost(b: Box, x0: int, y0: int, x1: int, y1: int): nat
    requires x0 <= x1 && y0 <= y1
    decreases x1 - x0 + y1 - y0
  {
    if x0 == x1 then y1 - y0
    else if y0 == y1 then x1 - x0
    else
      var edit := 1 + Min(Cost(b, x0 + 1, y0, x1, y1), Cost(b, x0, y0 + 1, x1, y1));
      if b.Same(x0, y0) then Min(edit, Cost(b, x0 + 1, y0 + 1, x1, y1)) else edit
  }

  /** Cost of the whole box: the length of its shortest insert/delete script. */
  ghost function Distance(b: Box): nat
    requires b.Valid()
  {
    Cost(b, b.xoff, b.yoff, b.xlim, b.ylim)
  }

  // ----- Scripts: what Cost is the minimum of

  datatype Move = Delete | Insert | Keep

  /** The moves lead from (x0, y0) to (x1, y1), keeping only lines that agree. */
  ghost predicate Leads(b: Box, moves: seq<Move>, x0: int, y0: int, x1: int, y1: int)
    decreases |moves|
  {
    if moves == [] then x0 == x1 && y0 == y1
    else
      match moves[0]
      case Delete => Leads(b, moves[1..], x0 + 1, y0, x1, y1)
      case Insert => Leads(b, moves[1..], x0, y0 + 1, x1, y1)
      case Keep => b.Same(x0, y0) && Leads(b, moves[1..], x0 + 1, y0 + 1, x1, y1)
  }

  ghost function Edits(moves: seq<Move>): nat {
    if moves == [] then 0 else (if moves[0].Keep? then 0 else 1) + Edits(moves[1..])
  }

  /** No script is shorter than Cost. */
  lemma {:induction false} CostIsLowerBound(b: Box, moves: seq<Move>, x0: int, y0: int, x1: int, y1: int)
    requires Leads(b, moves, x0, y0, x1, y1)
    ensures x0 <= x1 && y0 <= y1 && Cost(b, x0, y0, x1, y1) <= Edits(moves)
    decreases |moves|
  {
    if moves != [] {
      match moves[0]
      case Delete =>
        CostIsLowerBound(b, moves[1..], x0 + 1, y0, x1, y1);
      case Insert =>
        CostIsLowerBound(b, moves[1..], x0, y0 + 1, x1, y1);
      case Keep =>
        CostIsLowerBound(b, moves[1..], x0 + 1, y0 + 1, x1, y1);
    }
  }

  /** Some script attains Cost. */
  lemma {:induction false} CostIsAttained(b: Box, x0: int, y0: int, x1: int, y1: int) returns (moves: seq<Move>)
    requires x0 <= x1 && y0 <= y1
    ensures Leads(b, moves, x0, y0, x1, y1) && Edits(moves) == Cost(b, x0, y0, x1, y1)
    decreases x1 - x0 + y1 - y0
  {
    if x0 == x1 && y0 == y1 {
      moves := [];
    } else if y0 < y1 && Cost(b, x0, y0, x1, y1) == 1 + Cost(b, x0, y0 + 1, x1, y1) {
      var rest := CostIsAttained(b, x0, y0 + 1, x1, y1);
      moves := [Insert] + rest;
    } else if x0 < x1 && Cost(b, x0, y0, x1, y1) == 1 + Cost(b, x0 + 1, y0, x1, y1) {
      var rest := CostIsAttained(b, x0 + 1, y0, x1, y1);
      moves := [Delete] + rest;
    } else {
      var rest := CostIsAttained(b, x0 + 1, y0 + 1, x1, y1);
      moves := [Keep] + rest;
    }
  }

  // ----- Elementary facts about Cost

  /** The first move of a shortest route. */
  lemma FirstMove(b: Box, x: int, y: int, x1: int, y1: int)
    requires x <= x1 && y <= y1 && (x < x1 || y < y1)
    ensures (x < x1 && Cost(b, x, y, x1, y1) == 1 + Cost(b, x + 1, y, x1, y1))
            || (y < y1 && Cost(b, x, y, x1, y1) == 1 + Cost(b, x, y + 1, x1, y1))
            || (x < x1 && y < y1 && b.Same(x, y) && Cost(b, x, y, x1, y1) == Cost(b, x + 1, y + 1, x1, y1))
  {
  }

  /** No route by way of a first move is shorter. */
  lemma AnyFirstMove(b: Box, x: int, y: int, x1: int, y1: int)
    requires x <= x1 && y <= y1
    ensures Cost(b, x1, y1, x1, y1) == 0
    ensures x < x1 ==> Cost(b, x, y, x1, y1) <= 1 + Cost(b, x + 1, y, x1, y1)
    ensures y < y1 ==> Cost(b, x, y, x1, y1) <= 1 + Cost(b, x, y + 1, x1, y1)
    ensures x < x1 && y < y1 && b.Same(x, y) ==> Cost(b, x, y, x1, y1) <= Cost(b, x + 1, y + 1, x1, y1)
  {
    if x < x1 && y < y1 {
      assert Cost(b, x1, y1, x1, y1) == 0;
    }
  }

  /** Cost has the parity of the city-block distance. */
  lemma {:induction false} CostParity(b: Box, x0: int, y0: int, x1: int, y1: int)
    requires x0 <= x1 && y0 <= y1
    ensures (Cost(b, x0, y0, x1, y1) + x1 - x0 + y1 - y0) % 2 == 0
    decreases x1 - x0 + y1 - y0
  {
    hide Cost;
    if x0 < x1 || y0 < y1 {
      FirstMove(b, x0, y0, x1, y1);
      if x0 < x1 {
        CostParity(b, x0 + 1, y0, x1, y1);
      }
      if y0 < y1 {
        CostParity(b, x0, y0 + 1, x1, y1);
      }
      if x0 < x1 && y0 < y1 {
        CostParity(b, x0 + 1, y0 + 1, x1, y1);
      }
    } else {
      AnyFirstMove(b, x0, y0, x1, y1);
    }
  }

  /** Cost is at least the number of diagonals crossed and at most the city-block distance. */
  lemma {:induction false} CostBounds(b: Box, x0: int, y0: int, x1: int, y1: int)
    requires x0 <= x1 && y0 <= y1
    ensures x1 - x0 - (y1 - y0) <= Cost(b, x0, y0, x1, y1)
    ensures y1 - y0 - (x1 - x0) <= Cost(b, x0, y0, x1, y1)
    ensures Cost(b, x0, y0, x1, y1) <= x1 - x0 + y1 - y0
    decreases x1 - x0 + y1 - y0
  {
    if x0 < x1 && y0 < y1 {
      CostBounds(b, x0 + 1, y0, x1, y1);
      CostBounds(b, x0, y0 + 1, x1, y1);
      CostBounds(b, x0 + 1, y0 + 1, x1, y1);
    }
  }

  /** Going through a point on the way is never cheaper. */
  lemma {:induction false} Triangle(b: Box, x0: int, y0: int, x: int, y: int, x1: int, y1: int)
    requires x0 <= x <= x1 && y0 <= y <= y1
    ensures Cost(b, x0, y0, x1, y1) <= Cost(b, x0, y0, x, y) + Cost(b, x, y, x1, y1)
    decreases x - x0 + y - y0
  {
    hide Cost;
    if x0 < x || y0 < y {
      FirstMove(b, x0, y0, x, y);
      AnyFirstMove(b, x0, y0, x1, y1);
      if x0 < x {
        Triangle(b, x0 + 1, y0, x, y, x1, y1);
      }
      if y0 < y {
        Triangle(b, x0, y0 + 1, x, y, x1, y1);
      }
      if x0 < x && y0 < y {
        Triangle(b, x0 + 1, y0 + 1, x, y, x1, y1);
      }
    }
  }

  /** One more move at the end costs what that move costs. */
  lemma OneMore(b: Box, x0: int, y0: int, x: int, y: int)
    requires x0 <= x && y0 <= y
    ensures Cost(b, x0, y0, x + 1, y) <= Cost(b, x0, y0, x, y) + 1
    ensures Cost(b, x0, y0, x, y + 1) <= Cost(b, x0, y0, x, y) + 1
    ensures b.Same(x, y) ==> Cost(b, x0, y0, x + 1, y + 1) <= Cost(b, x0, y0, x, y)
  {
    Triangle(b, x0, y0, x, y, x + 1, y);
    Triangle(b, x0, y0, x, y, x, y + 1);
    Triangle(b, x0, y0, x, y, x + 1, y + 1);
    assert Cost(b, x + 1, y + 1, x + 1, y + 1) == 0;
  }

  /** The last move of a shortest route. */
  ghost predicate EndsWith(b: Box, x0: int, y0: int, x: int, y: int, move: Move)
    requires x0 <= x && y0 <= y
  {
    match move
    case Delete => x0 < x && Cost(b, x0, y0, x, y) == Cost(b, x0, y0, x - 1, y) + 1
    case Insert => y0 < y && Cost(b, x0, y0, x, y) == Cost(b, x0, y0, x, y - 1) + 1
    case Keep => x0 < x && y0 < y && b.Same(x - 1, y - 1)
                 && Cost(b, x0, y0, x, y) == Cost(b, x0, y0, x - 1, y - 1)
  }

  /** A route's last move stays its last move when a first move is put before it. */
  lemma PrependMove(b: Box, x0: int, y0: int, dx: int, dy: int, x: int, y: int, last: Move)
    requires 0 <= dx && 0 <= dy && x0 + dx <= x && y0 + dy <= y
    requires Cost(b, x0, y0, x, y) == Cost(b, x0, y0, x0 + dx, y0 + dy) + Cost(b, x0 + dx, y0 + dy, x, y)
    requires EndsWith(b, x0 + dx, y0 + dy, x, y, last)
    ensures EndsWith(b, x0, y0, x, y, last)
  {
    var px := if last.Insert? then x else x - 1;
    var py := if last.Delete? then y else y - 1;
    Triangle(b, x0, y0, x0 + dx, y0 + dy, px, py);
    OneMore(b, x0, y0, px, py);
  }

  lemma {:induction false} LastMove(b: Box, x0: int, y0: int, x: int, y: int) returns (last: Move)
    requires x0 <= x && y0 <= y && (x0 < x || y0 < y)
    ensures EndsWith(b, x0, y0, x, y, last)
    decreases x - x0 + y - y0
  {
    if x0 == x {
      last := Insert;
    } else if y0 == y {
      last := Delete;
    } else if Cost(b, x0, y0, x, y) == 1 + Cost(b, x0 + 1, y0, x, y) {
      last := LastMove(b, x0 + 1, y0, x, y);
      PrependMove(b, x0, y0, 1, 0, x, y, last);
    } else if Cost(b, x0, y0, x, y) == 1 + Cost(b, x0, y0 + 1, x, y) {
      last := LastMove(b, x0, y0 + 1, x, y);
      PrependMove(b, x0, y0, 0, 1, x, y, last);
    } else if x0 + 1 == x && y0 + 1 == y {
      last := Keep;
    } else {
      last := LastMove(b, x0 + 1, y0 + 1, x, y);
      assert Cost(b, x0 + 1, y0 + 1, x0 + 1, y0 + 1) == 0;
      PrependMove(b, x0, y0, 1, 1, x, y, last);
    }
  }

  /** Cost to a fixed target changes by at most one from a point to its neighbour. */
  lemma {:induction false} NeighbourCost(b: Box, x: int, y: int, x1: int, y1: int)
    requires x <= x1 && y <= y1
    ensures x < x1 ==> Cost(b, x + 1, y, x1, y1) <= 1 + Cost(b, x, y, x1, y1)
    ensures y < y1 ==> Cost(b, x, y + 1, x1, y1) <= 1 + Cost(b, x, y, x1, y1)
    decreases x1 - x + y1 - y
  {
    if x < x1 && y < y1 {
      NeighbourCost(b, x + 1, y, x1, y1);
      NeighbourCost(b, x, y + 1, x1, y1);
    }
  }

  /** Walking down a diagonal never takes us further from the target. */
  lemma {:induction false} DownDiagonal(b: Box, x: int, y: int, k: nat, x1: int, y1: int)
    requires x + k <= x1 && y + k <= y1
    ensures Cost(b, x + k, y + k, x1, y1) <= Cost(b, x, y, x1, y1)
    decreases k
  {
    if k > 0 {
      NeighbourCost(b, x + 1, y, x1, y1);
      NeighbourCost(b, x, y + 1, x1, y1);
      DownDiagonal(b, x + 1, y + 1, k - 1, x1, y1);
    }
  }

  /** Cost from a fixed source changes by at most one from a point to its neighbour. */
  lemma {:induction false} NeighbourCostFrom(b: Box, x0: int, y0: int, x: int, y: int)
    requires x0 <= x && y0 <= y
    ensures x0 < x ==> Cost(b, x0, y0, x - 1, y) <= 1 + Cost(b, x0, y0, x, y)
    ensures y0 < y ==> Cost(b, x0, y0, x, y - 1) <= 1 + Cost(b, x0, y0, x, y)
    decreases x - x0 + y - y0
  {
    if x0 < x && y0 < y {
      var last := LastMove(b, x0, y0, x, y);
      OneMore(b, x0, y0, x - 1, y - 1);
      match last
      case Delete => NeighbourCostFrom(b, x0, y0, x - 1, y);
      case Insert => NeighbourCostFrom(b, x0, y0, x, y - 1);
      case Keep =>
    }
  }

  /** Walking down a diagonal never brings us closer to the source. */
  lemma {:induction false} UpDiagonal(b: Box, x0: int, y0: int, x: int, y: int, k: nat)
    requires x0 <= x && y0 <= y
    ensures Cost(b, x0, y0, x, y) <= Cost(b, x0, y0, x + k, y + k)
    decreases k
  {
    if k > 0 {
      UpDiagonal(b, x0, y0, x, y, k - 1);
      var u, v := x + k, y + k;
      var last := LastMove(b, x0, y0, u, v);
      match last
      case Delete => NeighbourCostFrom(b, x0, y0, u - 1, v);
      case Insert => NeighbourCostFrom(b, x0, y0, u, v - 1);
      case Keep =>
    }
  }

  /** Somewhere on a shortest route exactly k edits have been made. */
  lemma {:induction false} PointOnRoute(b: Box, x0: int, y0: int, x1: int, y1: int, k: nat) returns (x: int, y: int)
    requires x0 <= x1 && y0 <= y1 && k <= Cost(b, x0, y0, x1, y1)
    ensures x0 <= x <= x1 && y0 <= y <= y1
    ensures Cost(b, x0, y0, x, y) == k
    ensures Cost(b, x, y, x1, y1) == Cost(b, x0, y0, x1, y1) - k
    decreases x1 - x0 + y1 - y0
  {
    if k == 0 {
      x, y := x0, y0;
    } else {
      if y0 < y1 && Cost(b, x0, y0, x1, y1) == 1 + Cost(b, x0, y0 + 1, x1, y1) {
        x, y := PointOnRoute(b, x0, y0 + 1, x1, y1, k - 1);
        Triangle(b, x0, y0, x0, y0 + 1, x, y);
      } else if x0 < x1 && Cost(b, x0, y0, x1, y1) == 1 + Cost(b, x0 + 1, y0, x1, y1) {
        x, y := PointOnRoute(b, x0 + 1, y0, x1, y1, k - 1);
        Triangle(b, x0, y0, x0 + 1, y0, x, y);
      } else {
        x, y := PointOnRoute(b, x0 + 1, y0 + 1, x1, y1, k);
        Triangle(b, x0, y0, x0 + 1, y0 + 1, x, y);
      }
      Triangle(b, x0, y0, x, y, x1, y1);
    }
  }

  // ----- Points outside the box

  /** On or past the far sides nothing can be kept, so a long walk there was too long. */
  lemma {:induction false} BeyondFarSides(b: Box, x: int, y: int)
    requires b.Valid() && b.xoff <= x && b.yoff <= y
    requires b.xlim <= x || b.ylim <= y
    ensures Distance(b) <= Cost(b, b.xoff, b.yoff, x, y) + b.xlim + b.ylim - x - y
    decreases x + y - b.xoff - b.yoff
  {
    if x <= b.xlim && y <= b.ylim {
      Triangle(b, b.xoff, b.yoff, x, y, b.xlim, b.ylim);
    } else {
      var last := LastMove(b, b.xoff, b.yoff, x, y);
      if last.Delete? {
        BeyondFarSides(b, x - 1, y);
      } else {
        BeyondFarSides(b, x, y - 1);
      }
    }
  }

  lemma {:induction false} BeyondNearSides(b: Box, x: int, y: int)
    requires b.Valid() && x <= b.xlim && y <= b.ylim
    requires x <= b.xoff || y <= b.yoff
    ensures Distance(b) <= Cost(b, x, y, b.xlim, b.ylim) + x + y - b.xoff - b.yoff
    decreases b.xlim + b.ylim - x - y
  {
    if b.xoff <= x && b.yoff <= y {
      Triangle(b, b.xoff, b.yoff, x, y, b.xlim, b.ylim);
    } else {
      if x < b.xlim && Cost(b, x, y, b.xlim, b.ylim) == 1 + Cost(b, x + 1, y, b.xlim, b.ylim) {
        BeyondNearSides(b, x + 1, y);
      } else {
        BeyondNearSides(b, x, y + 1);
      }
    }
  }

  // ----- Boxes inside boxes

  /** Cost depends only on the lines between the two points. */
  lemma {:induction false} SameCost(b: Box, c: Box, x0: int, y0: int, x1: int, y1: int)
    requires x0 <= x1 && y0 <= y1
    requires forall x, y :: x0 <= x < x1 && y0 <= y < y1 ==> b.Same(x, y) == c.Same(x, y)
    ensures Cost(b, x0, y0, x1, y1) == Cost(c, x0, y0, x1, y1)
    decreases x1 - x0 + y1 - y0
  {
    if x0 < x1 && y0 < y1 {
      SameCost(b, c, x0 + 1, y0, x1, y1);
      SameCost(b, c, x0, y0 + 1, x1, y1);
      SameCost(b, c, x0 + 1, y0 + 1, x1, y1);
    }
  }

  /** A matching first pair of lines can always be kept. */
  lemma KeepFirst(b: Box)
    requires b.Valid() && b.Same(b.xoff, b.yoff)
    ensures Distance(b) == Distance(b.(xoff := b.xoff + 1, yoff := b.yoff + 1))
  {
    DownDiagonal(b, b.xoff, b.yoff, 1, b.xlim, b.ylim);
    SameCost(b, b.(xoff := b.xoff + 1, yoff := b.yoff + 1), b.xoff + 1, b.yoff + 1, b.xlim, b.ylim);
  }

  /** A matching last pair of lines can always be kept. */
  lemma KeepLast(b: Box)
    requires b.Valid() && b.Same(b.xlim - 1, b.ylim - 1)
    ensures Distance(b) == Distance(b.(xlim := b.xlim - 1, ylim := b.ylim - 1))
  {
    UpDiagonal(b, b.xoff, b.yoff, b.xlim - 1, b.ylim - 1, 1);
    OneMore(b, b.xoff, b.yoff, b.xlim - 1, b.ylim - 1);
    SameCost(b, b.(xlim := b.xlim - 1, ylim := b.ylim - 1), b.xoff, b.yoff, b.xlim - 1, b.ylim - 1);
  }

  /** Nor do any number of matching lines, in front or behind, cost anything. */
  lemma {:induction false} LeaveOffFirst(b: Box, n: nat)
    requires b.Valid() && b.xoff + n <= b.xlim && b.yoff + n <= b.ylim
    requires forall i, j :: b.xoff <= i < b.xoff + n && j - i == b.yoff - b.xoff ==> b.Same(i, j)
    ensures Distance(b) == Distance(b.(xoff := b.xoff + n, yoff := b.yoff + n))
    decreases n
  {
    hide Cost;
    if n > 0 {
      KeepFirst(b);
      var c := b.(xoff := b.xoff + 1, yoff := b.yoff + 1);
      forall i, j | c.xoff <= i < c.xoff + (n - 1) && j - i == c.yoff - c.xoff
        ensures c.Same(i, j)
      {
        assert b.Same(i, j);
      }
      LeaveOffFirst(c, n - 1);
    }
  }

  lemma {:induction false} LeaveOffLast(b: Box, n: nat)
    requires b.Valid() && b.xoff <= b.xlim - n && b.yoff <= b.ylim - n
    requires forall i, j :: b.xlim - n <= i < b.xlim && j - i == b.ylim - b.xlim ==> b.Same(i, j)
    ensures Distance(b) == Distance(b.(xlim := b.xlim - n, ylim := b.ylim - n))
    decreases n
  {
    hide Cost;
    if n > 0 {
      KeepLast(b);
      var c := b.(xlim := b.xlim - 1, ylim := b.ylim - 1);
      forall i, j | c.xlim - (n - 1) <= i < c.xlim && j - i == c.ylim - c.xlim
        ensures c.Same(i, j)
      {
        assert b.Same(i, j);
      }
      LeaveOffLast(c, n - 1);
    }
  }

  /** A box whose first lines differ and whose last lines differ costs at least two. */
  lemma TrimmedBoxCostsTwo(b: Box)
    requires b.Valid() && b.xoff < b.xlim && b.yoff < b.ylim
    requires !b.Same(b.xoff, b.yoff) && !b.Same(b.xlim - 1, b.ylim - 1)
    ensures Distance(b) >= 2
  {
    var last := LastMove(b, b.xoff, b.yoff, b.xlim, b.ylim);
    if Distance(b) == 1 {
      if last.Delete? {
        CostBounds(b, b.xoff, b.yoff, b.xlim - 1, b.ylim);
      } else {
        CostBounds(b, b.xoff, b.yoff, b.xlim, b.ylim - 1);
      }
    }
  }
}
