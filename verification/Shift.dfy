/**
 `shift_boundaries`: slide runs of changed lines to where they read better.

 A run can move over a line that equals the one it leaves behind.  The flags
 change, but not the sequence of codes they leave over, so the two files still
 pair off.  A flag vector has a zero sentinel at either end: line p is entry p + 1.
 */
module Shift {
  import opened Flags

  /** Lines start to i are a run of changes, with nothing flagged on either side. */
  ghost predicate Run(f: seq<bool>, start: int, i: int) {
    && 0 <= start < i <= |f|
    && (forall p :: start <= p < i ==> f[p])
    && (i == |f| || !f[i])
    && (start == 0 || !f[start - 1])
  }

  /** In the other file, there are changed lines just after the k-th unchanged one. */
  ghost predicate GapChanged(g: seq<bool>, k: int) {
    exists j :: 0 < j <= |g| && (j == |g| || !g[j]) && g[j - 1] && Unflagged(g, j) == k
  }

  /** A run of the given length that ends at line i can slide, line by equal line, to where it ends at line e. */
  ghost predicate Reach(codes: seq<int>, length: int, i: int, e: int) {
    && 0 <= length <= i <= |codes| && length <= e <= |codes|
    && (forall q :: e <= q < i ==> codes[q] == codes[q - length])
    && forall q :: i <= q < e ==> codes[q] == codes[q - length]
  }

  /** A run that ends at line e sits next to a change in the other file; base + e lines are unchanged up to there. */
  ghost predicate GapAt(g: seq<bool>, base: int, e: int) {
    GapChanged(g, base + e)
  }

  /**
   The run sits at the last place next to a change in the other file that it can slide to; if there is none,
   it can move no further forward.
   */
  ghost predicate Settled(codes: seq<int>, f: seq<bool>, g: seq<bool>, start: int, i: int)
    requires |codes| == |f| && 0 <= start < i <= |f|
  {
    var base := Unflagged(f, i) - i;
    if GapAt(g, base, i) then
      forall e :: i < e && Reach(codes, i - start, i, e) ==> !GapAt(g, base, e)
    else
      && (i == |f| || codes[start] != codes[i])
      && forall e :: Reach(codes, i - start, i, e) ==> !GapAt(g, base, e)
  }

  /** Of the places from ib to i, line corresponding is the last one next to a change; line n stands for none. */
  ghost predicate LastGap(g: seq<bool>, base: int, n: int, corresponding: int, ib: int, i: int) {
    if ib <= corresponding <= i && GapAt(g, base, corresponding) then
      forall e :: corresponding < e <= i ==> !GapAt(g, base, e)
    else
      corresponding == n && forall e :: ib <= e <= i ==> !GapAt(g, base, e)
  }

  /** The last place next to a change that a run has passed on its way from ib to i0 is where it belongs. */
  lemma Settles(codes: seq<int>, f: seq<bool>, g: seq<bool>, ib: int, i0: int, corresponding: int, start: int, i: int)
    requires |codes| == |f| && 0 <= start < i && i - start <= ib <= i <= i0 <= |f|
    requires ib == i - start || codes[ib - 1 - (i - start)] != codes[ib - 1]
    requires i0 == |f| || codes[i0 - (i - start)] != codes[i0]
    requires LastGap(g, Unflagged(f, i) - i, |f|, corresponding, ib, i0)
    requires i == if corresponding < i0 then corresponding else i0
    ensures Settled(codes, f, g, start, i)
  {
    hide GapAt;
    Within(codes, i - start, ib, i0, i);
  }

  lemma Within(codes: seq<int>, length: int, ib: int, i0: int, i: int)
    requires 0 <= length <= ib <= i <= i0 <= |codes|
    requires ib == length || codes[ib - 1 - length] != codes[ib - 1]
    requires i0 == |codes| || codes[i0 - length] != codes[i0]
    ensures forall e :: Reach(codes, length, i, e) ==> ib <= e <= i0
  {
  }

  ghost predicate SettledBefore(codes: seq<int>, f: seq<bool>, g: seq<bool>, s: int)
    requires |codes| == |f|
  {
    forall a, e :: Run(f, a, e) && e < s ==> Settled(codes, f, g, a, e)
  }

  // ----- Sliding keeps the codes that are left over

  /** The run gives up its last line for the equal line before it. */
  ghost function SlideBack(f: seq<bool>, start: int, i: int): seq<bool>
    requires 0 < start < i <= |f|
  {
    f[start - 1 := true][i - 1 := false]
  }

  /** The run gives up its first line for the equal line after it. */
  ghost function SlideForward(f: seq<bool>, start: int, i: int): seq<bool>
    requires 0 <= start < i < |f|
  {
    f[start := false][i := true]
  }

  lemma KeptOfRun(codes: seq<int>, f: seq<bool>, lo: int, hi: int, kept: int)
    requires |codes| == |f| && 0 <= lo <= kept < hi <= |f|
    requires forall p :: lo <= p < hi ==> f[p] == (p != kept)
    ensures Kept(codes, f, lo, hi) == [codes[kept]] && Count(f, lo, hi) == hi - lo - 1
  {
    KeptNone(codes, f, lo, kept);
    assert Kept(codes, f, lo, kept + 1) == [codes[kept]];
    KeptNone(codes, f, kept + 1, hi);
    KeptJoin(codes, f, lo, kept + 1, hi);
  }

  /** Moving the one unflagged line of a stretch to an equal line of the stretch. */
  lemma MoveKept(codes: seq<int>, f: seq<bool>, f': seq<bool>, lo: int, hi: int, k: int, k': int)
    requires |codes| == |f| == |f'| && 0 <= lo <= k < hi <= |f| && lo <= k' < hi
    requires forall p :: lo <= p < hi ==> f[p] == (p != k) && f'[p] == (p != k')
    requires forall p :: 0 <= p < |f| && !(lo <= p < hi) ==> f'[p] == f[p]
    requires codes[k] == codes[k']
    ensures Kept(codes, f', 0, |f|) == Kept(codes, f, 0, |f|)
    ensures Count(f', 0, hi) == Count(f, 0, hi) && Count(f', 0, |f|) == Count(f, 0, |f|)
  {
    KeptOfRun(codes, f, lo, hi, k);
    KeptOfRun(codes, f', lo, hi, k');
    KeptSame(codes, f, codes, f', 0, lo);
    KeptSame(codes, f, codes, f', hi, |f|);
    KeptJoin(codes, f, 0, lo, hi);
    KeptJoin(codes, f', 0, lo, hi);
    KeptJoin(codes, f, 0, hi, |f|);
    KeptJoin(codes, f', 0, hi, |f|);
  }

  /** Flags from b on count for more when those from a to b, which are unflagged in f, are not left out. */
  lemma CountBeyond(g: seq<bool>, f: seq<bool>, a: int, b: int)
    requires 0 <= a <= b <= |f| == |g|
    requires forall p :: b <= p < |f| ==> f[p] == g[p]
    ensures Count(g, b, |g|) <= Count(f, a, |f|)
    ensures (forall p :: a <= p < b ==> !f[p]) ==> Count(g, b, |g|) == Count(f, a, |f|)
  {
    KeptJoin(f, f, a, b, |f|);
    KeptSame(f, f, g, g, b, |f|);
    if forall p :: a <= p < b ==> !f[p] {
      KeptAll(f, f, a, b);
    }
  }

  lemma SlideBackKeeps(codes: seq<int>, f: seq<bool>, start: int, i: int)
    requires |codes| == |f| && Run(f, start, i) && 0 < start && codes[start - 1] == codes[i - 1]
    ensures var f' := SlideBack(f, start, i);
            && Kept(codes, f', 0, |f|) == Kept(codes, f, 0, |f|)
            && Count(f', 0, |f|) == Count(f, 0, |f|)
            && Count(f', 0, i - 1) == Count(f, 0, i)
  {
    var f' := SlideBack(f, start, i);
    MoveKept(codes, f, f', start - 1, i, start - 1, i - 1);
    CountStep(f', i - 1);
  }

  lemma SlideForwardKeeps(codes: seq<int>, f: seq<bool>, start: int, i: int)
    requires |codes| == |f| && Run(f, start, i) && i < |f| && codes[start] == codes[i]
    ensures var f' := SlideForward(f, start, i);
            && Kept(codes, f', 0, |f|) == Kept(codes, f, 0, |f|)
            && Count(f', 0, |f|) == Count(f, 0, |f|)
            && Count(f', 0, i + 1) == Count(f, 0, i)
  {
    var f' := SlideForward(f, start, i);
    MoveKept(codes, f, f', start, i + 1, i, start);
    CountStep(f, i);
  }

  /** A pass moved the run from sb..ib, where it could go no further back, to start..i without joining others, so it can be taken back. */
  ghost predicate Trail(codes: seq<int>, f: seq<bool>, sb: int, ib: int, start: int, i: int)
    requires |codes| == |f|
  {
    && 0 <= sb <= start < i <= |f| && i - ib == start - sb
    && (forall q :: ib <= q < i ==> codes[q] == codes[q - (i - start)])
    && (forall p :: sb <= p < start ==> !f[p])
    && (sb == 0 || (!f[sb - 1] && codes[sb - 1] != codes[ib - 1]))
  }

  lemma TrailFirst(codes: seq<int>, f: seq<bool>, start: int, i: int)
    requires |codes| == |f| && Run(f, start, i) && (start == 0 || codes[start - 1] != codes[i - 1])
    ensures Trail(codes, f, start, i, start, i)
  {
  }

  lemma TrailLonger(codes: seq<int>, f: seq<bool>, sb: int, ib: int, start: int, i: int)
    requires |codes| == |f| && Trail(codes, f, sb, ib, start, i)
    requires i < |f| && codes[start] == codes[i]
    ensures Trail(codes, SlideForward(f, start, i), sb, ib, start + 1, i + 1)
  {
  }

  lemma TrailShorter(codes: seq<int>, f: seq<bool>, sb: int, ib: int, start: int, i: int)
    requires |codes| == |f| && Trail(codes, f, sb, ib, start, i) && ib < i && Run(f, start, i)
    ensures 0 < start && codes[start - 1] == codes[i - 1]
    ensures Trail(codes, SlideBack(f, start, i), sb, ib, start - 1, i - 1)
    ensures Run(SlideBack(f, start, i), start - 1, i - 1)
  {
  }

  lemma FirstGap(g: seq<bool>, base: int, n: int, last: int, i: int)
    requires last == if GapAt(g, base, i) then i else n
    ensures LastGap(g, base, n, last, i, i)
  {
  }

  /** One more place, next to a change or not. */
  lemma NextGap(g: seq<bool>, base: int, n: int, last: int, last': int, ib: int, i: int)
    requires ib <= i < n && LastGap(g, base, n, last, ib, i)
    requires last' == if GapAt(g, base, i + 1) then i + 1 else last
    ensures LastGap(g, base, n, last', ib, i + 1)
  {
  }

  lemma GapPassed(g: seq<bool>, base: int, n: int, last: int, ib: int, i: int)
    requires i <= n && LastGap(g, base, n, last, ib, i)
    ensures last < i ==> ib <= last
  {
  }

  // ----- Sliding leaves the runs before it settled

  lemma SettledEarlier(codes: seq<int>, f: seq<bool>, f': seq<bool>, g: seq<bool>, s: int, s': int)
    requires |codes| == |f| == |f'| && s' <= s && s' <= |f|
    requires SettledBefore(codes, f, g, s)
    requires forall p :: 0 <= p < s' ==> f'[p] == f[p]
    ensures SettledBefore(codes, f', g, s')
  {
    forall a, e | Run(f', a, e) && e < s'
      ensures Settled(codes, f', g, a, e)
    {
      assert Run(f, a, e);
      KeptSame(codes, f, codes, f', 0, e);
    }
  }

  /** Passing an unflagged line adds no run. */
  lemma SettledPastUnflagged(codes: seq<int>, f: seq<bool>, g: seq<bool>, s: int)
    requires |codes| == |f| && 0 <= s
    requires SettledBefore(codes, f, g, s) && (0 < s <= |f| ==> !f[s - 1])
    ensures SettledBefore(codes, f, g, s + 1)
  {
  }

  lemma SettledPastRun(codes: seq<int>, f: seq<bool>, g: seq<bool>, start: int, i: int)
    requires |codes| == |f| && Run(f, start, i)
    requires SettledBefore(codes, f, g, start) && Settled(codes, f, g, start, i)
    ensures SettledBefore(codes, f, g, i + 1)
  {
    forall a, e | Run(f, a, e) && e < i + 1
      ensures Settled(codes, f, g, a, e)
    {
      if e == i {
        assert a == start;
      } else if start <= e {
        assert false;
      }
    }
  }

  /** All that a step forward keeps: nothing is left out or put in, and the runs before stay settled. */
  lemma ForwardEffect(codes: seq<int>, f: seq<bool>, g: seq<bool>, start: int, i: int)
    requires |codes| == |f| && Run(f, start, i) && i < |f| && codes[start] == codes[i]
    requires SettledBefore(codes, f, g, start)
    ensures var f' := SlideForward(f, start, i);
            && Kept(codes, f', 0, |f|) == Kept(codes, f, 0, |f|)
            && Count(f', 0, |f|) == Count(f, 0, |f|)
            && Count(f', 0, i + 1) == Count(f, 0, i)
            && SettledBefore(codes, f', g, start + 1)
  {
    hide Kept, Count;
    var f' := SlideForward(f, start, i);
    SlideForwardKeeps(codes, f, start, i);
    SettledEarlier(codes, f, f', g, start, start);
    SettledPastUnflagged(codes, f', g, start);
  }

  /** All that a step back keeps, up to any line from which nothing has changed. */
  lemma BackEffect(codes: seq<int>, f: seq<bool>, g: seq<bool>, start: int, i: int, s: int)
    requires |codes| == |f| && Run(f, start, i) && 0 < start && codes[start - 1] == codes[i - 1]
    requires SettledBefore(codes, f, g, start) && 0 <= s < start
    ensures var f' := SlideBack(f, start, i);
            && Kept(codes, f', 0, |f|) == Kept(codes, f, 0, |f|)
            && Count(f', 0, |f|) == Count(f, 0, |f|)
            && Count(f', 0, i - 1) == Count(f, 0, i)
            && Count(f', i - 1, |f|) == Count(f, i, |f|)
            && SettledBefore(codes, f', g, s)
  {
    hide Kept, Count;
    var f' := SlideBack(f, start, i);
    SlideBackKeeps(codes, f, start, i);
    SettledEarlier(codes, f, f', g, start, s);
    CountBeyond(f, f', i - 1, i);
  }

  // ----- The method

  class Shifter {
    const changed: array<bool>
    const other: array<bool>
    const equivs: seq<int>

    constructor (changed: array<bool>, other: array<bool>, equivs: seq<int>)
      requires changed != other && changed.Length == |equivs| + 2 && 2 <= other.Length
      requires !changed[0] && !changed[changed.Length - 1] && !other[0] && !other[other.Length - 1]
      ensures Valid() && this.changed == changed && this.other == other && this.equivs == equivs
    {
      this.changed, this.other, this.equivs := changed, other, equivs;
    }

    /** The sentinels are in place. */
    ghost predicate Valid()
      reads changed, other
    {
      && changed != other && changed.Length == |equivs| + 2 && 2 <= other.Length
      && !changed[0] && !changed[changed.Length - 1]
      && !other[0] && !other[other.Length - 1]
    }

    ghost function F(): (f: seq<bool>)
      requires Valid()
      reads changed, other
      ensures |f| == |equivs|
      ensures forall p :: 0 <= p < |f| ==> f[p] == changed[p + 1]
    {
      Lines(changed[..])
    }

    ghost function G(): (g: seq<bool>)
      requires Valid()
      reads changed, other
      ensures |g| == other.Length - 2
      ensures forall p :: 0 <= p < |g| ==> g[p] == other[p + 1]
    {
      Lines(other[..])
    }

    /** Equally many lines are left unchanged up to line i and up to line j of the other file. */
    ghost predicate Abreast(i: int, j: int)
      requires Valid()
      reads changed, other
    {
      && 0 <= i <= |equivs| && 0 <= j <= other.Length - 2
      && Unflagged(F(), i) == Unflagged(G(), j)
      && Unflagged(F(), |equivs|) == Unflagged(G(), other.Length - 2)
    }

    /** j stands at an unchanged line of the other file, or at its end. */
    ghost predicate AtRest(j: int)
      requires Valid()
      reads changed, other
    {
      0 <= j <= other.Length - 2 && !other[j + 1]
    }

    /** Step back over changed lines of the other file to the previous unchanged one. */
    method PreviousInOther(j: int) returns (k: int)
      requires Valid() && 0 <= j <= other.Length - 2 && 0 < Unflagged(G(), j)
      ensures AtRest(k) && k < j && Unflagged(G(), k) == Unflagged(G(), j) - 1
    {
      k := j - 1;
      while other[k + 1]
        invariant 0 <= k < j && Unflagged(G(), k + 1) == Unflagged(G(), j)
        decreases k
      {
        k := k - 1;
      }
    }

    /** Step forward over one unchanged line of the other file and the changed ones after it. */
    method NextInOther(j: int) returns (k: int)
      requires Valid() && AtRest(j) && j < other.Length - 2
      ensures AtRest(k) && j < k && Unflagged(G(), k) == Unflagged(G(), j) + 1
      ensures j + 1 < k <==> other[k]
    {
      k := j + 1;
      CountStep(G(), j);
      while other[k + 1]
        invariant j < k <= other.Length - 2 && Unflagged(G(), k) == Unflagged(G(), j) + 1
        invariant j + 1 < k <==> other[k]
        decreases other.Length - k
      {
        k := k + 1;
      }
    }

    /** Go on to the first line of the next run, keeping step in the other file. */
    method ScanToRun(i0: int, j0: int) returns (i: int, j: int)
      requires Valid() && Abreast(i0, j0)
      requires SettledBefore(equivs, F(), G(), i0 + 1)
      ensures i0 <= i && Abreast(i, j) && (i < |equivs| ==> changed[i + 1])
      ensures SettledBefore(equivs, F(), G(), i + 1)
      ensures i0 < i ==> !changed[i]
      ensures Count(F(), i, |equivs|) == Count(F(), i0, |equivs|)
    {
      i, j := i0, j0;
      while i < |equivs| && !changed[i + 1]
        invariant i0 <= i && Abreast(i, j)
        invariant SettledBefore(equivs, F(), G(), i + 1)
        invariant i0 < i ==> !changed[i]
        invariant Count(F(), i, |equivs|) == Count(F(), i0, |equivs|)
      {
        j := SkipOne(i, j);
        SettledPastUnflagged(equivs, F(), G(), i + 1);
        CountStep(F(), i);
        KeptJoin(equivs, F(), i, i + 1, |equivs|);
        i := i + 1;
      }
    }

    /** Pass the changed lines of the other file and the unchanged one that pairs off with line i. */
    method SkipOne(i: int, j0: int) returns (j: int)
      requires Valid() && Abreast(i, j0) && i < |equivs| && !changed[i + 1]
      ensures 0 <= j <= other.Length - 2 && Unflagged(G(), j) == Unflagged(G(), j0) + 1
    {
      UnflaggedGrows(F(), i, |equivs|);
      j := j0;
      while other[j + 1]
        invariant j0 <= j <= other.Length - 2 && Unflagged(G(), j) == Unflagged(G(), j0)
        decreases other.Length - j
      {
        CountStep(G(), j);
        j := j + 1;
      }
      CountStep(G(), j);
      j := j + 1;
    }

    /** Pass the flagged lines from start on. */
    method EndOfRun(start: int, j0: int) returns (i: int, j: int)
      requires Valid() && Abreast(start, j0) && start < |equivs| && changed[start + 1]
      requires start == 0 || !changed[start]
      ensures Run(F(), start, i) && Abreast(i, j) && AtRest(j)
    {
      CountStep(F(), start);
      i, j := start + 1, j0;
      while changed[i + 1]
        invariant start < i <= |equivs| && Unflagged(F(), i) == Unflagged(F(), start)
        invariant forall p :: start <= p < i ==> F()[p]
        decreases |equivs| - i
      {
        CountStep(F(), i);
        i := i + 1;
      }
      while other[j + 1]
        invariant 0 <= j <= other.Length - 2 && Unflagged(G(), j) == Unflagged(G(), j0)
        decreases other.Length - j
      {
        CountStep(G(), j);
        j := j + 1;
      }
    }

    /** What holds of the current run at every step of the inner loops. */
    ghost predicate Current(kept: seq<int>, flags: nat, start: int, i: int, j: int)
      requires Valid()
      reads changed, other
    {
      && Kept(equivs, F(), 0, |equivs|) == kept
      && Count(F(), 0, |equivs|) == flags
      && Run(F(), start, i) && Abreast(i, j) && AtRest(j)
      && SettledBefore(equivs, F(), G(), start)
    }

    /** Move the run back over one equal line, joining the run before it if they now touch. */
    method StepBack(ghost kept: seq<int>, ghost flags: nat, start0: int, i0: int, j0: int) returns (start: int, i: int, j: int)
      requires Valid() && Current(kept, flags, start0, i0, j0)
      requires 0 < start0 && equivs[start0 - 1] == equivs[i0 - 1]
      modifies changed
      ensures Valid() && Current(kept, flags, start, i, j) && G() == old(G())
      ensures start < start0 && i == i0 - 1
      ensures Count(F(), i, |equivs|) == old(Count(F(), i0, |equivs|))
      ensures start == start0 - 1 ==> F() == SlideBack(old(F()), start0, i0)
    {
      hide Kept, Count, SettledBefore;
      ghost var f := F();
      start, i := start0 - 1, i0 - 1;
      changed[start + 1] := true;
      changed[i + 1] := false;
      assert F() == SlideBack(f, start0, i0);
      while changed[start]
        invariant 0 <= start < start0
        invariant forall p :: start <= p < i ==> F()[p]
        invariant start == start0 - 1 || f[start]
        decreases start
      {
        start := start - 1;
      }
      BackEffect(equivs, f, G(), start0, i0, start);
      j := PreviousInOther(j0);
    }

    /** Move the run forward over one equal line, joining the run after it if they now touch. */
    method StepForward(ghost kept: seq<int>, ghost flags: nat, start0: int, i0: int, j0: int, corresponding0: int)
      returns (start: int, i: int, j: int, corresponding: int)
      requires Valid() && Current(kept, flags, start0, i0, j0)
      requires i0 < |equivs| && equivs[start0] == equivs[i0]
      modifies changed
      ensures Valid() && Current(kept, flags, start, i, j) && G() == old(G())
      ensures start == start0 + 1 && i0 < i
      ensures Count(F(), i, |equivs|) <= old(Count(F(), i0, |equivs|))
      ensures i == i0 + 1 ==> F() == SlideForward(old(F()), start0, i0)
      ensures Unflagged(F(), i) == old(Unflagged(F(), i0)) + 1
      ensures corresponding == (if j0 + 1 < j then i else corresponding0)
      ensures j0 + 1 < j <==> GapChanged(G(), Unflagged(F(), i))
    {
      hide Kept, Count, SettledBefore;
      ghost var f := F();
      ForwardEffect(equivs, f, G(), start0, i0);
      UnflaggedGrows(f, i0, |equivs|);
      start, i := start0 + 1, i0 + 1;
      changed[start0 + 1] := false;
      changed[i0 + 1] := true;
      ghost var f' := SlideForward(f, start0, i0);
      assert Valid() && F() == f';
      while changed[i + 1]
        invariant Valid() && i0 < i <= |equivs| && F() == f'
        invariant forall p :: start <= p < i ==> F()[p]
        invariant Unflagged(f', i) == Unflagged(f', i0 + 1)
        decreases |equivs| - i
      {
        CountStep(f', i);
        i := i + 1;
      }
      CountBeyond(f', f, i0, i);
      j := NextInOther(j0);
      GapBefore(j, Unflagged(G(), j));
      corresponding := if j0 + 1 < j then i else corresponding0;
    }

    /** Of the places that the run has passed, it would last sit next to a change of the other file if it ended at line corresponding. */
    ghost predicate Corresponds(corresponding: int, ib: int, i: int)
      requires Valid()
      reads changed, other
    {
      0 <= i <= |equivs| && LastGap(G(), Unflagged(F(), i) - i, |equivs|, corresponding, ib, i)
    }

    /** There is a change just before a line of the other file where the counting rests, or there is none with this count. */
    lemma GapBefore(j: int, k: int)
      requires Valid() && AtRest(j) && k == Unflagged(G(), j)
      ensures GapChanged(G(), k) <==> other[j]
    {
      forall l | 0 < l <= |G()| && (l == |G()| || !G()[l]) && Unflagged(G(), l) == k
        ensures l == j
      {
        if l < j {
          UnflaggedGrows(G(), l, j);
        } else if j < l {
          UnflaggedGrows(G(), j, l);
        }
      }
      assert other[j] ==> 0 < j && G()[j - 1];
    }

    /** Slide the run towards the beginning until no step back is left; on the way it can only grow. */
    method MoveBack(ghost kept: seq<int>, ghost flags: nat, start0: int, i0: int, j0: int) returns (start: int, i: int, j: int)
      requires Valid() && Current(kept, flags, start0, i0, j0)
      modifies changed
      ensures Valid() && Current(kept, flags, start, i, j) && G() == old(G())
      ensures i0 - start0 <= i - start
      ensures start == 0 || equivs[start - 1] != equivs[i - 1]
      ensures Count(F(), i, |equivs|) <= old(Count(F(), i0, |equivs|))
    {
      start, i, j := start0, i0, j0;
      while start > 0 && equivs[start - 1] == equivs[i - 1]
        invariant Valid() && Current(kept, flags, start, i, j) && G() == old(G())
        invariant i0 - start0 <= i - start
        invariant Count(F(), i, |equivs|) <= old(Count(F(), i0, |equivs|))
        decreases start
      {
        start, i, j := StepBack(kept, flags, start, i, j);
      }
    }

    /**
     Slide the run towards the end until no step is left.  If it has not grown on the way, then every place
     can be reached again, and `corresponding` is the last of them next to a change in the other file.
     */
    method MoveForward(ghost kept: seq<int>, ghost flags: nat, sb: int, ib: int, jb: int)
      returns (start: int, i: int, j: int, corresponding: int)
      requires Valid() && Current(kept, flags, sb, ib, jb)
      requires sb == 0 || equivs[sb - 1] != equivs[ib - 1]
      modifies changed
      ensures Valid() && Current(kept, flags, start, i, j) && G() == old(G())
      ensures ib - sb <= i - start
      ensures Count(F(), i, |equivs|) <= old(Count(F(), ib, |equivs|))
      ensures i == |equivs| || equivs[start] != equivs[i]
      ensures i - start == ib - sb ==> Trail(equivs, F(), sb, ib, start, i) && Corresponds(corresponding, ib, i)
    {
      hide Count, Kept, SettledBefore, Trail, LastGap, GapChanged, SlideForward;
      start, i, j := sb, ib, jb;
      corresponding := if other[j] then i else |equivs|;
      GapBefore(j, Unflagged(G(), j));
      FirstGap(G(), Unflagged(F(), i) - i, |equivs|, corresponding, i);
      TrailFirst(equivs, F(), start, i);
      while i != |equivs| && equivs[start] == equivs[i]
        invariant Valid() && Current(kept, flags, start, i, j) && G() == old(G())
        invariant ib - sb <= i - start
        invariant Count(F(), i, |equivs|) <= old(Count(F(), ib, |equivs|))
        invariant i - start == ib - sb ==> Trail(equivs, F(), sb, ib, start, i) && Corresponds(corresponding, ib, i)
        decreases |equivs| - i
      {
        ghost var f, start1, i1, corresponding1 := F(), start, i, corresponding;
        start, i, j, corresponding := StepForward(kept, flags, start, i, j, corresponding);
        if i - start == ib - sb {
          TrailLonger(equivs, f, sb, ib, start1, i1);
          NextGap(G(), Unflagged(F(), i) - i, |equivs|, corresponding1, corresponding, ib, i1);
        }
      }
    }

    /** Slide back and forth until the run stops growing. */
    method Grow(ghost kept: seq<int>, ghost flags: nat, start0: int, i0: int, j0: int)
      returns (start: int, i: int, j: int, corresponding: int, ghost sb: int, ghost ib: int)
      requires Valid() && Current(kept, flags, start0, i0, j0)
      modifies changed
      ensures Valid() && Current(kept, flags, start, i, j) && G() == old(G())
      ensures Count(F(), i, |equivs|) <= old(Count(F(), i0, |equivs|))
      ensures i == |equivs| || equivs[start] != equivs[i]
      ensures Trail(equivs, F(), sb, ib, start, i) && Corresponds(corresponding, ib, i)
    {
      start, i, j := start0, i0, j0;
      while true
        invariant Valid() && Current(kept, flags, start, i, j) && G() == old(G())
        invariant Count(F(), i, |equivs|) <= old(Count(F(), i0, |equivs|))
        decreases |equivs| - (i - start)
      {
        var runlength := i - start;
        start, i, j := MoveBack(kept, flags, start, i, j);
        sb, ib := start, i;
        start, i, j, corresponding := MoveForward(kept, flags, start, i, j);
        if runlength == i - start {
          break;
        }
      }
    }

    /** Take the run back by one line of its trail. */
    method StepReturn(ghost kept: seq<int>, ghost flags: nat, start0: int, i0: int, j0: int, ghost sb: int, ghost ib: int)
      returns (start: int, i: int, j: int)
      requires Valid() && Current(kept, flags, start0, i0, j0) && Trail(equivs, F(), sb, ib, start0, i0) && ib < i0
      modifies changed
      ensures Valid() && Current(kept, flags, start, i, j) && Trail(equivs, F(), sb, ib, start, i) && G() == old(G())
      ensures start == start0 - 1 && i == i0 - 1
      ensures Count(F(), i, |equivs|) == old(Count(F(), i0, |equivs|))
      ensures Unflagged(F(), i) == old(Unflagged(F(), i0)) - 1
    {
      hide Kept, Count, SettledBefore;
      ghost var f := F();
      TrailShorter(equivs, f, sb, ib, start0, i0);
      start, i := start0 - 1, i0 - 1;
      changed[start + 1] := true;
      changed[i + 1] := false;
      assert Valid() && F() == SlideBack(f, start0, i0);
      BackEffect(equivs, f, G(), start0, i0, start);
      j := PreviousInOther(j0);
    }

    /** Undo forward steps until the run ends next to a run of the other file, where one was passed. */
    method Return(ghost kept: seq<int>, ghost flags: nat, start0: int, i0: int, j0: int, corresponding: int, ghost sb: int, ghost ib: int)
      returns (start: int, i: int, j: int)
      requires Valid() && Current(kept, flags, start0, i0, j0)
      requires Trail(equivs, F(), sb, ib, start0, i0) && Corresponds(corresponding, ib, i0)
      requires i0 == |equivs| || equivs[start0] != equivs[i0]
      modifies changed
      ensures Valid() && Current(kept, flags, start, i, j) && G() == old(G())
      ensures Count(F(), i, |equivs|) <= old(Count(F(), i0, |equivs|))
      ensures Settled(equivs, F(), G(), start, i)
    {
      hide Kept, Count, SettledBefore, LastGap, Settled;
      GapPassed(G(), Unflagged(F(), i0) - i0, |equivs|, corresponding, ib, i0);
      start, i, j := start0, i0, j0;
      while corresponding < i
        invariant Valid() && Current(kept, flags, start, i, j) && G() == old(G())
        invariant Trail(equivs, F(), sb, ib, start, i) && i - start == i0 - start0
        invariant i <= i0 && (i < i0 ==> corresponding <= i)
        invariant Unflagged(F(), i) - i == old(Unflagged(F(), i0)) - i0
        invariant Count(F(), i, |equivs|) <= old(Count(F(), i0, |equivs|))
        decreases i
      {
        start, i, j := StepReturn(kept, flags, start, i, j, sb, ib);
      }
      Settles(equivs, F(), G(), ib, i0, corresponding, start, i);
    }

    /** One pass over one file. */
    method ShiftFile()
      requires Valid() && Unflagged(F(), |equivs|) == Unflagged(G(), other.Length - 2)
      modifies changed
      ensures Valid() && G() == old(G())
      ensures Kept(equivs, F(), 0, |equivs|) == old(Kept(equivs, F(), 0, |equivs|))
      ensures Count(F(), 0, |equivs|) == old(Count(F(), 0, |equivs|))
      ensures forall start, i :: Run(F(), start, i) ==> Settled(equivs, F(), G(), start, i)
    {
      ghost var kept, flags := Kept(equivs, F(), 0, |equivs|), Count(F(), 0, |equivs|);
      var i, j := 0, 0;
      while true
        invariant Valid() && G() == old(G()) && Abreast(i, j)
        invariant Kept(equivs, F(), 0, |equivs|) == kept && Count(F(), 0, |equivs|) == flags
        invariant SettledBefore(equivs, F(), G(), i + 1)
        invariant i == 0 || i == |equivs| || !changed[i + 1]
        decreases Count(F(), i, |equivs|)
      {
        ghost var i0 := i;
        i, j := ScanToRun(i, j);
        if i == |equivs| {
          break;
        }
        var start, corresponding;
        ghost var sb, ib;
        start := i;
        i, j := EndOfRun(start, j);
        KeptJoin(equivs, F(), start, i, |equivs|);
        KeptNone(equivs, F(), start, i);
        start, i, j, corresponding, sb, ib := Grow(kept, flags, start, i, j);
        start, i, j := Return(kept, flags, start, i, j, corresponding, sb, ib);
        SettledPastRun(equivs, F(), G(), start, i);
      }
    }
  }
}
