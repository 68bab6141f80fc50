/**
 `compareseq`: flag the lines of two ranges that a script for them deletes and inserts.

 Whatever point `diag` returns, the lines left unflagged pair off.  When it
 returns the midpoint of a shortest script all the way down, the number of flags is
 the length of a shortest script.
 */
module CompareSeq {
  import opened EditGraph
  import opened Diagonals
  import opened Diag
  import opened Flags

  /** `realindexes`: which line of the file each compared line is. */
  ghost predicate Increasing(index: seq<nat>, lines: nat) {
    && (forall k :: 0 <= k < |index| ==> index[k] < lines)
    && forall j, k :: 0 <= j < k < |index| ==> index[j] < index[k]
  }

  /**
   The flags of the compared lines.  A flag vector has an extra element, always
   false, at either end, so line p has entry p + 1.
   */
  ghost function Virtual(changed: seq<bool>, index: seq<nat>): (v: seq<bool>)
    requires forall k :: 0 <= k < |index| ==> index[k] + 1 < |changed|
    ensures |v| == |index|
    ensures forall k :: 0 <= k < |index| ==> v[k] == changed[index[k] + 1]
  {
    seq(|index|, k requires 0 <= k < |index| => changed[index[k] + 1])
  }

  /** Entry i belongs to a compared line. */
  ghost predicate Compared(index: seq<nat>, i: int) {
    exists k :: 0 <= k < |index| && index[k] + 1 == i
  }

  /** Only compared lines, and of those only lines lo to hi, have new flags. */
  ghost predicate OnlyChanges(before: seq<bool>, after: seq<bool>, index: seq<nat>, lo: int, hi: int) {
    && |after| == |before|
    && (forall i :: 0 <= i < |before| && !Compared(index, i) ==> after[i] == before[i])
    && forall k :: 0 <= k < |index| && !(lo <= k < hi) && index[k] + 1 < |before| ==> after[index[k] + 1] == before[index[k] + 1]
  }

  lemma SetFlag(before: seq<bool>, now: seq<bool>, index: seq<nat>, lines: nat, lo: int, hi: int, k: int)
    requires Increasing(index, lines) && |before| == lines + 2 && |now| == |before|
    requires OnlyChanges(before, now, index, lo, hi)
    requires lo <= k < hi && 0 <= k < |index|
    ensures OnlyChanges(before, now[index[k] + 1 := true], index, lo, hi)
    ensures Virtual(now[index[k] + 1 := true], index) == Virtual(now, index)[k := true]
  {
    var after := now[index[k] + 1 := true];
    forall j | 0 <= j < |index| && j != k
      ensures index[j] != index[k]
    {
    }
  }

  lemma ChangesJoin(a: seq<bool>, b: seq<bool>, c: seq<bool>, index: seq<nat>, lo: int, mid: int, hi: int)
    requires lo <= mid <= hi
    requires OnlyChanges(a, b, index, lo, mid) && OnlyChanges(b, c, index, mid, hi)
    ensures OnlyChanges(a, c, index, lo, hi)
  {
  }

  lemma Unchanged(a: seq<bool>, index: seq<nat>, lo: int, hi: int)
    ensures OnlyChanges(a, a, index, lo, hi)
  {
  }

  lemma VirtualSame(a: seq<bool>, b: seq<bool>, index: seq<nat>, lo: int, hi: int)
    requires OnlyChanges(a, b, index, lo, hi) && forall k :: 0 <= k < |index| ==> index[k] + 1 < |a|
    ensures |b| == |a| && forall k :: 0 <= k < |index| && !(lo <= k < hi) ==> Virtual(b, index)[k] == Virtual(a, index)[k]
  {
  }

  lemma ChangesWiden(a: seq<bool>, b: seq<bool>, index: seq<nat>, lo: int, lo': int, hi': int, hi: int)
    requires lo <= lo' <= hi' <= hi && OnlyChanges(a, b, index, lo', hi')
    ensures OnlyChanges(a, b, index, lo, hi)
  {
  }

  // ----- What the flags of a box must satisfy

  ghost predicate Solved(b: Box, v0: seq<bool>, v1: seq<bool>, minimal: bool) {
    && b.Valid() && |v0| == |b.xv| && |v1| == |b.yv|
    && Paired(b.xv, v0, b.xoff, b.xlim, b.yv, v1, b.yoff, b.ylim)
    && (minimal ==> Count(v0, b.xoff, b.xlim) + Count(v1, b.yoff, b.ylim) == Distance(b))
  }

  ghost predicate Clear(v: seq<bool>, lo: int, hi: int) {
    0 <= lo <= hi <= |v| && forall k :: lo <= k < hi ==> !v[k]
  }

  lemma ClearParts(v: seq<bool>, lo: int, mid: int, hi: int)
    requires Clear(v, lo, hi) && lo <= mid <= hi
    ensures Clear(v, lo, mid) && Clear(v, mid, hi)
  {
  }

  /** Flags outside the box do not matter. */
  lemma SolvedSame(b: Box, v0: seq<bool>, v1: seq<bool>, w0: seq<bool>, w1: seq<bool>, minimal: bool)
    requires Solved(b, v0, v1, minimal) && |w0| == |v0| && |w1| == |v1|
    requires forall k :: b.xoff <= k < b.xlim ==> w0[k] == v0[k]
    requires forall k :: b.yoff <= k < b.ylim ==> w1[k] == v1[k]
    ensures Solved(b, w0, w1, minimal)
  {
    KeptSame(b.xv, v0, b.xv, w0, b.xoff, b.xlim);
    KeptSame(b.yv, v1, b.yv, w1, b.yoff, b.ylim);
  }

  /** One file has no lines left: everything in the other is flagged. */
  lemma SolvedOneSided(b: Box, v0: seq<bool>, v1: seq<bool>, minimal: bool)
    requires b.Valid() && |v0| == |b.xv| && |v1| == |b.yv|
    requires b.xoff == b.xlim || b.yoff == b.ylim
    requires forall k :: b.xoff <= k < b.xlim ==> v0[k]
    requires forall k :: b.yoff <= k < b.ylim ==> v1[k]
    ensures Solved(b, v0, v1, minimal)
  {
    KeptNone(b.xv, v0, b.xoff, b.xlim);
    KeptNone(b.yv, v1, b.yoff, b.ylim);
  }

  lemma SolvedAtLeast(b: Box, v0: seq<bool>, v1: seq<bool>, less: bool, more: bool)
    requires Solved(b, v0, v1, more) && (less ==> more)
    ensures Solved(b, v0, v1, less)
  {
  }

  /** Leaving off matching lines at both ends does not change the distance. */
  lemma TrimmedDistance(b: Box, n: nat, m: nat)
    requires b.Valid() && b.xoff + n + m <= b.xlim && b.yoff + n + m <= b.ylim
    requires forall i :: b.xoff <= i < b.xoff + n ==> b.xv[i] == b.yv[i - b.xoff + b.yoff]
    requires forall i :: b.xlim - m <= i < b.xlim ==> b.xv[i] == b.yv[i - b.xlim + b.ylim]
    ensures Distance(b) == Distance(b.(xoff := b.xoff + n, yoff := b.yoff + n, xlim := b.xlim - m, ylim := b.ylim - m))
  {
    hide Cost;
    LeaveOffFirst(b, n);
    LeaveOffLast(b.(xoff := b.xoff + n, yoff := b.yoff + n), m);
  }

  /** Solutions of two halves make a solution of the whole; a shortest one if the cut was a good one. */
  lemma SolvedHalves(b: Box, x: int, y: int, v0: seq<bool>, v1: seq<bool>, lo: bool, hi: bool, minimal: bool)
    requires b.Valid() && b.Has(x, y)
    requires Solved(b.(xlim := x, ylim := y), v0, v1, lo)
    requires Solved(b.(xoff := x, yoff := y), v0, v1, hi)
    requires minimal ==> lo && hi && Distance(b.(xlim := x, ylim := y)) + Distance(b.(xoff := x, yoff := y)) == Distance(b)
    ensures Solved(b, v0, v1, minimal)
  {
    hide Cost;
    KeptJoin(b.xv, v0, b.xoff, x, b.xlim);
    KeptJoin(b.yv, v1, b.yoff, y, b.ylim);
  }

  /** A matching pair of lines in front, or behind, stays unflagged and costs nothing. */
  lemma SolvedKeepFirst(b: Box, v0: seq<bool>, v1: seq<bool>, minimal: bool)
    requires b.Valid() && b.Same(b.xoff, b.yoff)
    requires Solved(b.(xoff := b.xoff + 1, yoff := b.yoff + 1), v0, v1, minimal)
    requires !v0[b.xoff] && !v1[b.yoff]
    ensures Solved(b, v0, v1, minimal)
  {
    hide Cost;
    KeepFirst(b);
    KeptJoin(b.xv, v0, b.xoff, b.xoff + 1, b.xlim);
    KeptJoin(b.yv, v1, b.yoff, b.yoff + 1, b.ylim);
    KeptAll(b.xv, v0, b.xoff, b.xoff + 1);
    KeptAll(b.yv, v1, b.yoff, b.yoff + 1);
  }

  lemma SolvedKeepLast(b: Box, v0: seq<bool>, v1: seq<bool>, minimal: bool)
    requires b.Valid() && b.Same(b.xlim - 1, b.ylim - 1)
    requires Solved(b.(xlim := b.xlim - 1, ylim := b.ylim - 1), v0, v1, minimal)
    requires !v0[b.xlim - 1] && !v1[b.ylim - 1]
    ensures Solved(b, v0, v1, minimal)
  {
    hide Cost;
    KeepLast(b);
    KeptJoin(b.xv, v0, b.xoff, b.xlim - 1, b.xlim);
    KeptJoin(b.yv, v1, b.yoff, b.ylim - 1, b.ylim);
    KeptAll(b.xv, v0, b.xlim - 1, b.xlim);
    KeptAll(b.yv, v1, b.ylim - 1, b.ylim);
  }

  lemma {:induction false} SolvedSlide(b: Box, n: nat, v0: seq<bool>, v1: seq<bool>, minimal: bool)
    requires b.Valid() && b.xoff + n <= b.xlim && b.yoff + n <= b.ylim
    requires forall i :: b.xoff <= i < b.xoff + n ==> b.xv[i] == b.yv[i - b.xoff + b.yoff]
    requires Solved(b.(xoff := b.xoff + n, yoff := b.yoff + n), v0, v1, minimal)
    requires Clear(v0, b.xoff, b.xoff + n) && Clear(v1, b.yoff, b.yoff + n)
    ensures Solved(b, v0, v1, minimal)
    decreases n
  {
    hide Cost, Paired;
    if n > 0 {
      var c := b.(xoff := b.xoff + 1, yoff := b.yoff + 1);
      assert c.(xoff := c.xoff + (n - 1), yoff := c.yoff + (n - 1)) == b.(xoff := b.xoff + n, yoff := b.yoff + n);
      SolvedSlide(c, n - 1, v0, v1, minimal);
      SolvedKeepFirst(b, v0, v1, minimal);
    }
  }

  lemma {:induction false} SolvedSlideUp(b: Box, n: nat, v0: seq<bool>, v1: seq<bool>, minimal: bool)
    requires b.Valid() && b.xoff + n <= b.xlim && b.yoff + n <= b.ylim
    requires forall i :: b.xlim - n <= i < b.xlim ==> b.xv[i] == b.yv[i - b.xlim + b.ylim]
    requires Solved(b.(xlim := b.xlim - n, ylim := b.ylim - n), v0, v1, minimal)
    requires Clear(v0, b.xlim - n, b.xlim) && Clear(v1, b.ylim - n, b.ylim)
    ensures Solved(b, v0, v1, minimal)
    decreases n
  {
    hide Cost, Paired;
    if n > 0 {
      var c := b.(xlim := b.xlim - 1, ylim := b.ylim - 1);
      assert c.(xlim := c.xlim - (n - 1), ylim := c.ylim - (n - 1)) == b.(xlim := b.xlim - n, ylim := b.ylim - n);
      SolvedSlideUp(c, n - 1, v0, v1, minimal);
      SolvedKeepLast(b, v0, v1, minimal);
    }
  }

  /** Leaving off matching lines at both ends, which stay unflagged. */
  lemma SolvedAround(b: Box, n: nat, m: nat, v0: seq<bool>, v1: seq<bool>, minimal: bool)
    requires b.Valid() && b.xoff + n + m <= b.xlim && b.yoff + n + m <= b.ylim
    requires forall i :: b.xoff <= i < b.xoff + n ==> b.xv[i] == b.yv[i - b.xoff + b.yoff]
    requires forall i :: b.xlim - m <= i < b.xlim ==> b.xv[i] == b.yv[i - b.xlim + b.ylim]
    requires Solved(b.(xoff := b.xoff + n, yoff := b.yoff + n, xlim := b.xlim - m, ylim := b.ylim - m), v0, v1, minimal)
    requires Clear(v0, b.xoff, b.xoff + n) && Clear(v1, b.yoff, b.yoff + n)
    requires Clear(v0, b.xlim - m, b.xlim) && Clear(v1, b.ylim - m, b.ylim)
    ensures Solved(b, v0, v1, minimal)
  {
    hide Solved, Clear;
    SolvedSlideUp(b.(xoff := b.xoff + n, yoff := b.yoff + n), m, v0, v1, minimal);
    SolvedSlide(b, n, v0, v1, minimal);
  }

  // ----- The method

  /** Everything the recursion works on; only the two flag vectors and the diagonals change. */
  class Comparer {
    const cmp: Comparison
    const changed0: array<bool>
    const changed1: array<bool>
    const index0: seq<nat>
    const index1: seq<nat>

    ghost predicate Ready() {
      && cmp.Ready()
      && changed0 != changed1
      && |index0| == |cmp.xvec| && |index1| == |cmp.yvec|
      && 2 <= changed0.Length && Increasing(index0, changed0.Length - 2)
      && 2 <= changed1.Length && Increasing(index1, changed1.Length - 2)
    }

    ghost function Flags0(): (v: seq<bool>)
      requires Ready()
      reads changed0
      ensures |v| == |index0|
    {
      Virtual(changed0[..], index0)
    }

    ghost function Flags1(): (v: seq<bool>)
      requires Ready()
      reads changed1
      ensures |v| == |index1|
    {
      Virtual(changed1[..], index1)
    }

    constructor (cmp: Comparison, changed0: array<bool>, index0: seq<nat>, changed1: array<bool>, index1: seq<nat>)
      requires cmp.Ready() && changed0 != changed1
      requires |index0| == |cmp.xvec| && |index1| == |cmp.yvec|
      requires 2 <= changed0.Length && Increasing(index0, changed0.Length - 2)
      requires 2 <= changed1.Length && Increasing(index1, changed1.Length - 2)
      ensures Ready() && this.cmp == cmp
      ensures this.changed0 == changed0 && this.changed1 == changed1 && this.index0 == index0 && this.index1 == index1
    {
      this.cmp, this.changed0, this.index0, this.changed1, this.index1 := cmp, changed0, index0, changed1, index1;
    }

    method FlagAll0(lo: int, hi: int)
      requires Ready() && 0 <= lo <= hi <= |index0|
      modifies changed0
      ensures OnlyChanges(old(changed0[..]), changed0[..], index0, lo, hi)
      ensures forall k :: lo <= k < hi ==> Flags0()[k]
    {
      var x := lo;
      while x < hi
        invariant lo <= x <= hi
        invariant OnlyChanges(old(changed0[..]), changed0[..], index0, lo, hi)
        invariant forall k :: lo <= k < x ==> changed0[index0[k] + 1]
      {
        SetFlag(old(changed0[..]), changed0[..], index0, changed0.Length - 2, lo, hi, x);
        ghost var now := changed0[..];
        changed0[index0[x] + 1] := true;
        assert changed0[..] == now[index0[x] + 1 := true];
        x := x + 1;
      }
    }

    method FlagAll1(lo: int, hi: int)
      requires Ready() && 0 <= lo <= hi <= |index1|
      modifies changed1
      ensures OnlyChanges(old(changed1[..]), changed1[..], index1, lo, hi)
      ensures forall k :: lo <= k < hi ==> Flags1()[k]
    {
      var y := lo;
      while y < hi
        invariant lo <= y <= hi
        invariant OnlyChanges(old(changed1[..]), changed1[..], index1, lo, hi)
        invariant forall k :: lo <= k < y ==> changed1[index1[k] + 1]
      {
        SetFlag(old(changed1[..]), changed1[..], index1, changed1.Length - 2, lo, hi, y);
        ghost var now := changed1[..];
        changed1[index1[y] + 1] := true;
        assert changed1[..] == now[index1[y] + 1 := true];
        y := y + 1;
      }
    }

    /** Past equal lines at the beginning of a box. */
    method SkipFirst(xoff0: int, xlim: int, yoff0: int, ylim: int) returns (xoff: int, yoff: int)
      requires 0 <= xoff0 <= xlim <= |cmp.xvec| && 0 <= yoff0 <= ylim <= |cmp.yvec|
      ensures xoff0 <= xoff <= xlim && yoff0 <= yoff <= ylim && xoff - xoff0 == yoff - yoff0
      ensures forall i :: xoff0 <= i < xoff ==> cmp.xvec[i] == cmp.yvec[i - xoff0 + yoff0]
      ensures xoff < xlim && yoff < ylim ==> cmp.xvec[xoff] != cmp.yvec[yoff]
    {
      xoff, yoff := xoff0, yoff0;
      while xoff < xlim && yoff < ylim && cmp.xvec[xoff] == cmp.yvec[yoff]
        invariant xoff0 <= xoff <= xlim && yoff0 <= yoff <= ylim && xoff - xoff0 == yoff - yoff0
        invariant forall i :: xoff0 <= i < xoff ==> cmp.xvec[i] == cmp.yvec[i - xoff0 + yoff0]
      {
        xoff, yoff := xoff + 1, yoff + 1;
      }
    }

    /** Back over equal lines at its end. */
    method SkipLast(xoff: int, xlim0: int, yoff: int, ylim0: int) returns (xlim: int, ylim: int)
      requires 0 <= xoff <= xlim0 <= |cmp.xvec| && 0 <= yoff <= ylim0 <= |cmp.yvec|
      ensures xoff <= xlim <= xlim0 && yoff <= ylim <= ylim0 && xlim0 - xlim == ylim0 - ylim
      ensures forall i :: xlim <= i < xlim0 ==> cmp.xvec[i] == cmp.yvec[i - xlim0 + ylim0]
      ensures xoff < xlim && yoff < ylim ==> cmp.xvec[xlim - 1] != cmp.yvec[ylim - 1]
    {
      xlim, ylim := xlim0, ylim0;
      while xlim > xoff && ylim > yoff && cmp.xvec[xlim - 1] == cmp.yvec[ylim - 1]
        invariant xoff <= xlim <= xlim0 && yoff <= ylim <= ylim0 && xlim0 - xlim == ylim0 - ylim
        invariant forall i :: xlim <= i < xlim0 ==> cmp.xvec[i] == cmp.yvec[i - xlim0 + ylim0]
      {
        xlim, ylim := xlim - 1, ylim - 1;
      }
    }

    method CompareSeq(xoff0: int, xlim0: int, yoff0: int, ylim0: int, minimal: bool)
      requires Ready() && Box(cmp.xvec, cmp.yvec, xoff0, xlim0, yoff0, ylim0).Valid()
      requires Clear(Flags0(), xoff0, xlim0) && Clear(Flags1(), yoff0, ylim0)
      modifies changed0, changed1, cmp.fdiag, cmp.bdiag
      ensures Solved(Box(cmp.xvec, cmp.yvec, xoff0, xlim0, yoff0, ylim0), Flags0(), Flags1(),
                     minimal || cmp.Affordable(Box(cmp.xvec, cmp.yvec, xoff0, xlim0, yoff0, ylim0)))
      ensures OnlyChanges(old(changed0[..]), changed0[..], index0, xoff0, xlim0)
      ensures OnlyChanges(old(changed1[..]), changed1[..], index1, yoff0, ylim0)
      ensures cmp.xvec[xoff0..xlim0] == cmp.yvec[yoff0..ylim0] ==> changed0[..] == old(changed0[..]) && changed1[..] == old(changed1[..])
      decreases xlim0 - xoff0 + ylim0 - yoff0, 2
    {
      hide Cost, Paired, Solved, OnlyChanges, Clear, Virtual, Distance, Comparison.Affordable;
      var xoff, yoff := SkipFirst(xoff0, xlim0, yoff0, ylim0);
      var xlim, ylim := SkipLast(xoff, xlim0, yoff, ylim0);
      ClearParts(Flags0(), xoff0, xoff, xlim0);
      ClearParts(Flags1(), yoff0, yoff, ylim0);
      ClearParts(Flags0(), xoff, xlim, xlim0);
      ClearParts(Flags1(), yoff, ylim, ylim0);
      CompareTrimmed(xoff, xlim, yoff, ylim, minimal);
      if cmp.xvec[xoff0..xlim0] == cmp.yvec[yoff0..ylim0] {
        EqualMeet(cmp.xvec, xoff0, xoff, xlim0, xlim, cmp.yvec, yoff0, yoff, ylim0, ylim);
        NothingChanged(old(changed0[..]), changed0[..], index0, xoff);
        NothingChanged(old(changed1[..]), changed1[..], index1, yoff);
      }
      ChangesClear(old(changed0[..]), changed0[..], index0, xoff0, xoff, xlim, xlim0);
      ChangesClear(old(changed1[..]), changed1[..], index1, yoff0, yoff, ylim, ylim0);
      ChangesWiden(old(changed0[..]), changed0[..], index0, xoff0, xoff, xlim, xlim0);
      ChangesWiden(old(changed1[..]), changed1[..], index1, yoff0, yoff, ylim, ylim0);
      ghost var b := Box(cmp.xvec, cmp.yvec, xoff0, xlim0, yoff0, ylim0);
      ghost var exact := minimal || cmp.Affordable(b);
      TrimmedDistance(b, xoff - xoff0, xlim0 - xlim);
      cmp.SameDistance(b, b.(xoff := xoff, yoff := yoff, xlim := xlim, ylim := ylim));
      SolvedAround(b, xoff - xoff0, xlim0 - xlim, Flags0(), Flags1(), exact);
    }

    /** The simple cases, or a cut by `diag` and the two parts. */
    method CompareTrimmed(xoff: int, xlim: int, yoff: int, ylim: int, minimal: bool)
      requires Ready() && Box(cmp.xvec, cmp.yvec, xoff, xlim, yoff, ylim).Valid()
      requires Clear(Flags0(), xoff, xlim) && Clear(Flags1(), yoff, ylim)
      requires xoff < xlim && yoff < ylim ==> Trimmed(Box(cmp.xvec, cmp.yvec, xoff, xlim, yoff, ylim))
      modifies changed0, changed1, cmp.fdiag, cmp.bdiag
      ensures Solved(Box(cmp.xvec, cmp.yvec, xoff, xlim, yoff, ylim), Flags0(), Flags1(),
                     minimal || cmp.Affordable(Box(cmp.xvec, cmp.yvec, xoff, xlim, yoff, ylim)))
      ensures OnlyChanges(old(changed0[..]), changed0[..], index0, xoff, xlim)
      ensures OnlyChanges(old(changed1[..]), changed1[..], index1, yoff, ylim)
      decreases xlim - xoff + ylim - yoff, 1
    {
      hide Cost, Paired, Trimmed, GivenUp, Halves, Solved, Distance, Comparison.Affordable, Clear, OnlyChanges;
      var b := Box(cmp.xvec, cmp.yvec, xoff, xlim, yoff, ylim);
      ghost var exact := minimal || cmp.Affordable(b);
      Unchanged(changed0[..], index0, xoff, xlim);
      Unchanged(changed1[..], index1, yoff, ylim);
      if xoff == xlim {
        FlagAll1(yoff, ylim);
        SolvedOneSided(b, Flags0(), Flags1(), exact);
      } else if yoff == ylim {
        FlagAll0(xoff, xlim);
        SolvedOneSided(b, Flags0(), Flags1(), exact);
      } else {
        var c, part := cmp.Diag(xoff, xlim, yoff, ylim, minimal);
        if c == 1 {
          assert false;  // the call to abort
        }
        if exact && !minimal {
          cmp.NeverCut(b, part, c);
        }
        CompareParts(b, part, c, exact);
      }
    }

    method CompareParts(b: Box, part: Partition, ghost c: int, ghost exact: bool)
      requires Ready() && b.Valid() && b.xv == cmp.xvec && b.yv == cmp.yvec
      requires Clear(Flags0(), b.xoff, b.xlim) && Clear(Flags1(), b.yoff, b.ylim)
      requires Inside(b, part.xmid, part.ymid)
      requires exact ==> part.loMinimal && part.hiMinimal
      requires part.loMinimal && part.hiMinimal ==> Halves(b, part.xmid, part.ymid, c)
      modifies changed0, changed1, cmp.fdiag, cmp.bdiag
      ensures Solved(b, Flags0(), Flags1(), exact)
      ensures OnlyChanges(old(changed0[..]), changed0[..], index0, b.xoff, b.xlim)
      ensures OnlyChanges(old(changed1[..]), changed1[..], index1, b.yoff, b.ylim)
      decreases b.xlim - b.xoff + b.ylim - b.yoff, 0
    {
      hide Cost, Paired, Solved, Comparison.Affordable, OnlyChanges, Clear, Distance, Virtual;
      var x, y := part.xmid, part.ymid;
      ghost var before0, before1 := changed0[..], changed1[..];
      ClearParts(Flags0(), b.xoff, x, b.xlim);
      ClearParts(Flags1(), b.yoff, y, b.ylim);
      CompareSeq(b.xoff, x, b.yoff, y, part.loMinimal);
      SolvedAtLeast(b.(xlim := x, ylim := y), Flags0(), Flags1(), part.loMinimal, part.loMinimal || cmp.Affordable(b.(xlim := x, ylim := y)));
      ghost var mid0, mid1, flags0, flags1 := changed0[..], changed1[..], Flags0(), Flags1();
      ChangesClear(before0, mid0, index0, b.xoff, b.xoff, x, b.xlim);
      ChangesClear(before1, mid1, index1, b.yoff, b.yoff, y, b.ylim);
      CompareSeq(x, b.xlim, y, b.ylim, part.hiMinimal);
      SolvedAtLeast(b.(xoff := x, yoff := y), Flags0(), Flags1(), part.hiMinimal, part.hiMinimal || cmp.Affordable(b.(xoff := x, yoff := y)));
      VirtualSame(mid0, changed0[..], index0, x, b.xlim);
      VirtualSame(mid1, changed1[..], index1, y, b.ylim);
      SolvedSame(b.(xlim := x, ylim := y), flags0, flags1, Flags0(), Flags1(), part.loMinimal);
      SolvedHalves(b, x, y, Flags0(), Flags1(), part.loMinimal, part.hiMinimal, exact);
      ChangesJoin(before0, mid0, changed0[..], index0, b.xoff, x, b.xlim);
      ChangesJoin(before1, mid1, changed1[..], index1, b.yoff, y, b.ylim);
    }
  }

  /** In equal ranges the common beginning is all there is. */
  lemma EqualMeet(s: seq<int>, a0: int, a: int, b0: int, b: int, t: seq<int>, c0: int, c: int, d0: int, d: int)
    requires 0 <= a0 <= a <= b <= b0 <= |s| && 0 <= c0 <= c <= d <= d0 <= |t| && s[a0..b0] == t[c0..d0]
    requires a - a0 == c - c0 && b0 - b == d0 - d && !(a < b0 && c < d0 && s[a] == t[c])
    ensures a == b && c == d
  {
    assert |s[a0..b0]| == |t[c0..d0]|;
    EqualAt(s, a0, b0, t, c0, d0);
  }

  lemma EqualAt(s: seq<int>, a0: int, b0: int, t: seq<int>, c0: int, d0: int)
    requires 0 <= a0 <= b0 <= |s| && 0 <= c0 <= d0 <= |t| && s[a0..b0] == t[c0..d0]
    ensures forall a, c :: a0 <= a < b0 && c0 <= c < d0 && a - a0 == c - c0 ==> s[a] == t[c]
  {
    forall a, c | a0 <= a < b0 && c0 <= c < d0 && a - a0 == c - c0
      ensures s[a] == t[c]
    {
      assert s[a] == s[a0..b0][a - a0] && t[c] == t[c0..d0][a - a0];
    }
  }

  lemma NothingChanged(before: seq<bool>, after: seq<bool>, index: seq<nat>, at: int)
    requires OnlyChanges(before, after, index, at, at)
    ensures after == before
  {
  }

  /** Flags beside the part that changed are still clear. */
  lemma ChangesClear(a: seq<bool>, b: seq<bool>, index: seq<nat>, lo: int, lo': int, hi': int, hi: int)
    requires 0 <= lo <= lo' <= hi' <= hi <= |index| && OnlyChanges(a, b, index, lo', hi')
    requires forall k :: 0 <= k < |index| ==> index[k] + 1 < |a|
    requires Clear(Virtual(a, index), lo, hi)
    ensures Clear(Virtual(b, index), lo, lo') && Clear(Virtual(b, index), hi', hi)
  {
  }
}
