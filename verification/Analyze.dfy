/**
 `diff_2_files`, from equivalence codes to an edit script: discard, compare, shift, build.
 */
module Analyze {
  import opened EditGraph
  import opened Diag
  import opened Flags
  import opened CompareSeq
  import opened Shift
  import opened Discard
  import opened Script

  /** The box of two whole files. */
  ghost function Whole(equivs0: seq<int>, equivs1: seq<int>): Box {
    Box(equivs0, equivs1, 0, |equivs0|, 0, |equivs1|)
  }

  /** The flags leave over the same codes in both files. */
  ghost predicate Matching(equivs0: seq<int>, f0: seq<bool>, equivs1: seq<int>, f1: seq<bool>) {
    && |f0| == |equivs0| && |f1| == |equivs1|
    && Paired(equivs0, f0, 0, |equivs0|, equivs1, f1, 0, |equivs1|)
  }

  /** The number of lines that the flags delete and insert. */
  ghost function Flagged(f0: seq<bool>, f1: seq<bool>): nat {
    Count(f0, 0, |f0|) + Count(f1, 0, |f1|)
  }

  /** If the last lines of two ranges stay, they have the same code. */
  lemma LastKept(s: seq<int>, f: seq<bool>, n: int, t: seq<int>, g: seq<bool>, m: int)
    requires |f| == |s| && |g| == |t| && 0 <= n <= |s| && 0 <= m <= |t|
    requires Kept(s, f, 0, n) == Kept(t, g, 0, m)
    requires (n > 0 ==> !f[n - 1]) && (m > 0 ==> !g[m - 1])
    ensures n > 0 <==> m > 0
    ensures n > 0 ==> s[n - 1] == t[m - 1] && Kept(s, f, 0, n - 1) == Kept(t, g, 0, m - 1)
  {
    if n > 0 && m > 0 {
      var k, l := Kept(s, f, 0, n - 1), Kept(t, g, 0, m - 1);
      assert k == (k + [s[n - 1]])[..|k|] && l == (l + [t[m - 1]])[..|l|];
      assert (k + [s[n - 1]])[|k|] == s[n - 1] && (l + [t[m - 1]])[|l|] == t[m - 1];
    }
  }

  /** No flags that leave over the same codes can be fewer than the distance. */
  lemma {:induction false} DistanceIsLeast(b: Box, f0: seq<bool>, f1: seq<bool>, n: int, m: int)
    requires |f0| == |b.xv| && |f1| == |b.yv| && b == Whole(b.xv, b.yv)
    requires 0 <= n <= |f0| && 0 <= m <= |f1|
    requires Kept(b.xv, f0, 0, n) == Kept(b.yv, f1, 0, m)
    ensures Cost(b, 0, 0, n, m) <= Count(f0, 0, n) + Count(f1, 0, m)
    decreases n + m
  {
    if n > 0 && f0[n - 1] {
      DistanceIsLeast(b, f0, f1, n - 1, m);
      OneMore(b, 0, 0, n - 1, m);
    } else if m > 0 && f1[m - 1] {
      DistanceIsLeast(b, f0, f1, n, m - 1);
      OneMore(b, 0, 0, n, m - 1);
    } else {
      LastKept(b.xv, f0, n, b.yv, f1, m);
      if n > 0 {
        DistanceIsLeast(b, f0, f1, n - 1, m - 1);
        OneMore(b, 0, 0, n - 1, m - 1);
      }
    }
  }

  /** Some flags that leave over the same codes are as few as the distance. */
  lemma {:induction false} DistanceIsReached(b: Box, x: int, y: int) returns (f0: seq<bool>, f1: seq<bool>)
    requires b == Whole(b.xv, b.yv) && 0 <= x <= |b.xv| && 0 <= y <= |b.yv|
    ensures |f0| == |b.xv| && |f1| == |b.yv|
    ensures Kept(b.xv, f0, x, |f0|) == Kept(b.yv, f1, y, |f1|)
    ensures Count(f0, x, |f0|) + Count(f1, y, |f1|) == Cost(b, x, y, |b.xv|, |b.yv|)
    decreases |b.xv| - x + |b.yv| - y
  {
    hide Cost, Kept, Count;
    var n, m := |b.xv|, |b.yv|;
    if x == n && y == m {
      f0, f1 := seq(n, _ => false), seq(m, _ => false);
      AnyFirstMove(b, x, y, n, m);
      KeptAll(b.xv, f0, x, n);
      KeptAll(b.yv, f1, y, m);
    } else {
      FirstMove(b, x, y, n, m);
      if x < n && Cost(b, x, y, n, m) == 1 + Cost(b, x + 1, y, n, m) {
        f0, f1 := DistanceIsReached(b, x + 1, y);
        f0 := FlagFirst(b.xv, f0, x, true);
      } else if y < m && Cost(b, x, y, n, m) == 1 + Cost(b, x, y + 1, n, m) {
        f0, f1 := DistanceIsReached(b, x, y + 1);
        f1 := FlagFirst(b.yv, f1, y, true);
      } else {
        f0, f1 := DistanceIsReached(b, x + 1, y + 1);
        f0 := FlagFirst(b.xv, f0, x, false);
        f1 := FlagFirst(b.yv, f1, y, false);
      }
    }
  }

  /** One more line at the beginning. */
  lemma FlagFirst(s: seq<int>, f: seq<bool>, x: int, flag: bool) returns (g: seq<bool>)
    requires |f| == |s| && 0 <= x < |s|
    ensures |g| == |s|
    ensures Kept(s, g, x, |s|) == (if flag then [] else [s[x]]) + Kept(s, f, x + 1, |s|)
    ensures Count(g, x, |s|) == (if flag then 1 else 0) + Count(f, x + 1, |s|)
  {
    g := f[x := flag];
    KeptJoin(s, g, x, x + 1, |s|);
    KeptSame(s, g, s, f, x + 1, |s|);
    assert Kept(s, g, x, x) == [];
  }

  lemma {:induction false} KeptHas(s: seq<int>, f: seq<bool>, n: nat, p: nat)
    requires |f| == |s| && n <= |s| && p < n && !f[p]
    ensures s[p] in Kept(s, f, 0, n)
  {
    if p < n - 1 {
      KeptHas(s, f, n - 1, p);
    }
  }

  lemma {:induction false} KeptFrom(s: seq<int>, f: seq<bool>, n: nat, c: int)
    requires |f| == |s| && n <= |s| && c in Kept(s, f, 0, n)
    ensures c in s
  {
    if c in Kept(s, f, 0, n - 1) {
      KeptFrom(s, f, n - 1, c);
    }
  }

  /** Flags that match leave over no line that is absent from the other file. */
  lemma AbsentIsFlagged(equivs0: seq<int>, g0: seq<bool>, equivs1: seq<int>, g1: seq<bool>)
    requires Matching(equivs0, g0, equivs1, g1)
    ensures OnlyAbsent(equivs0, equivs1) ==> forall p :: 0 <= p < |g0| && LeftOut(equivs0, equivs1)[p] ==> g0[p]
    ensures OnlyAbsent(equivs1, equivs0) ==> forall p :: 0 <= p < |g1| && LeftOut(equivs1, equivs0)[p] ==> g1[p]
  {
    hide Kept, Final, Marks;
    forall p | 0 <= p < |g0| && equivs0[p] !in equivs1
      ensures g0[p]
    {
      if !g0[p] {
        KeptHas(equivs0, g0, |g0|, p);
        KeptFrom(equivs1, g1, |g1|, equivs0[p]);
      }
    }
    forall p | 0 <= p < |g1| && equivs1[p] !in equivs0
      ensures g1[p]
    {
      if !g1[p] {
        KeptHas(equivs1, g1, |g1|, p);
        KeptFrom(equivs0, g0, |g0|, equivs1[p]);
      }
    }
  }

  /** The codes that are compared, and how many flags there are at least when the others are flagged. */
  ghost function ToCompare(equivs: seq<int>, other: seq<int>, noDiscards: bool): (codes: seq<int>)
    ensures |codes| <= |equivs|
  {
    if noDiscards then equivs else LeftIn(equivs, other)
  }

  ghost function LeastFlags(equivs0: seq<int>, equivs1: seq<int>, noDiscards: bool): nat {
    var xvec, yvec := ToCompare(equivs0, equivs1, noDiscards), ToCompare(equivs1, equivs0, noDiscards);
    Distance(Whole(xvec, yvec)) + |equivs0| - |xvec| + |equivs1| - |yvec|
  }

  /** Two vectors are so close that the search for a shortest script is never cut short. */
  ghost predicate Close(xvec: seq<int>, yvec: seq<int>, heuristic: bool) {
    var distance := Distance(Whole(xvec, yvec));
    distance < 2 * TooExpensive(|xvec| + |yvec|) && (heuristic ==> distance < 402)
  }

  /** The search among the lines that are compared is not cut short. */
  ghost predicate Uncut(equivs0: seq<int>, equivs1: seq<int>, noDiscards: bool, heuristic: bool) {
    noDiscards || Close(LeftIn(equivs0, equivs1), LeftIn(equivs1, equivs0), heuristic)
  }

  /** In addition, no line is left out of it that could be kept. */
  ghost predicate Exhaustive(equivs0: seq<int>, equivs1: seq<int>, noDiscards: bool, heuristic: bool) {
    && Uncut(equivs0, equivs1, noDiscards, heuristic)
    && (noDiscards || (OnlyAbsent(equivs0, equivs1) && OnlyAbsent(equivs1, equivs0)))
  }

  lemma ExhaustiveMeans(equivs0: seq<int>, equivs1: seq<int>, noDiscards: bool, heuristic: bool)
    ensures Exhaustive(equivs0, equivs1, noDiscards, heuristic)
            ==> Uncut(equivs0, equivs1, noDiscards, heuristic) && (noDiscards || (OnlyAbsent(equivs0, equivs1) && OnlyAbsent(equivs1, equivs0)))
  {
    hide Uncut, OnlyAbsent;
  }

  /** Leaving out lines that cannot be kept does not call for more flags. */
  lemma LeftOutCostsNothing(equivs0: seq<int>, equivs1: seq<int>)
    requires OnlyAbsent(equivs0, equivs1) && OnlyAbsent(equivs1, equivs0)
    ensures LeastFlags(equivs0, equivs1, false) <= Distance(Whole(equivs0, equivs1))
  {
    hide Kept, Count, Cost, Final, Marks, OnlyAbsent;
    var g0, g1 := DistanceIsReached(Whole(equivs0, equivs1), 0, 0);
    AbsentIsFlagged(equivs0, g0, equivs1, g1);
    var v0 := Restricted(equivs0, LeftOut(equivs0, equivs1), g0);
    var v1 := Restricted(equivs1, LeftOut(equivs1, equivs0), g1);
    var xvec, yvec := LeftIn(equivs0, equivs1), LeftIn(equivs1, equivs0);
    DistanceIsLeast(Whole(xvec, yvec), v0, v1, |xvec|, |yvec|);
  }

  lemma LeastIsDistance(equivs0: seq<int>, f0: seq<bool>, equivs1: seq<int>, f1: seq<bool>, noDiscards: bool)
    requires Matching(equivs0, f0, equivs1, f1) && Flagged(f0, f1) == LeastFlags(equivs0, equivs1, noDiscards)
    requires noDiscards || (OnlyAbsent(equivs0, equivs1) && OnlyAbsent(equivs1, equivs0))
    ensures Flagged(f0, f1) == Distance(Whole(equivs0, equivs1))
  {
    hide Cost, Kept, Count, OnlyAbsent, LeftIn;
    DistanceIsLeast(Whole(equivs0, equivs1), f0, f1, |equivs0|, |equivs1|);
    if !noDiscards {
      LeftOutCostsNothing(equivs0, equivs1);
    }
  }

  /** Files without frequent lines that are close to each other are searched exhaustively. */
  lemma RareAndClose(equivs0: seq<int>, equivs1: seq<int>, heuristic: bool)
    requires Rare(equivs0, equivs1) && Rare(equivs1, equivs0)
    requires Distance(Whole(equivs0, equivs1)) < if heuristic then 402 else 512
    ensures Exhaustive(equivs0, equivs1, false, heuristic)
  {
    hide Cost, OnlyAbsent, Rare, LeftIn;
    RareAreKept(equivs0, equivs1);
    RareAreKept(equivs1, equivs0);
    LeftOutCostsNothing(equivs0, equivs1);
  }

  lemma MatchingIsLevel(equivs0: seq<int>, f0: seq<bool>, equivs1: seq<int>, f1: seq<bool>)
    requires Matching(equivs0, f0, equivs1, f1)
    ensures Level(f0, f1, |f0|, |f1|)
  {
    KeptSize(equivs0, f0, 0, |f0|);
    KeptSize(equivs1, f1, 0, |f1|);
  }

  /** Join the flags of discarded lines with those of the compared ones. */
  lemma MatchingFromCompared(equivs0: seq<int>, index0: seq<nat>, codes0: seq<int>, d0: seq<bool>, f0: seq<bool>, v0: seq<bool>,
                             equivs1: seq<int>, index1: seq<nat>, codes1: seq<int>, d1: seq<bool>, f1: seq<bool>, v1: seq<bool>)
    requires Lists(index0, codes0, equivs0, d0, |equivs0|) && |f0| == |d0| && |v0| == |index0|
    requires Lists(index1, codes1, equivs1, d1, |equivs1|) && |f1| == |d1| && |v1| == |index1|
    requires forall p :: 0 <= p < |f0| && p !in index0 ==> f0[p] == d0[p]
    requires forall p :: 0 <= p < |f1| && p !in index1 ==> f1[p] == d1[p]
    requires forall k :: 0 <= k < |v0| ==> v0[k] == f0[index0[k]]
    requires forall k :: 0 <= k < |v1| ==> v1[k] == f1[index1[k]]
    requires Paired(codes0, v0, 0, |v0|, codes1, v1, 0, |v1|)
    ensures Matching(equivs0, f0, equivs1, f1)
    ensures Flagged(f0, f1) == Flagged(v0, v1) + |f0| - |v0| + |f1| - |v1|
  {
    hide Kept, Count;
    KeptUndiscarded(index0, codes0, equivs0, d0, f0, v0);
    KeptUndiscarded(index1, codes1, equivs1, d1, f1, v1);
  }

  /** Mark and list the lines of one file. */
  method DiscardOne(equivs: seq<int>, other: seq<int>, equivMax: nat, changed: array<bool>, noDiscards: bool)
    returns (index: seq<nat>, undiscarded: seq<int>)
    requires forall p :: 0 <= p < |equivs| ==> 0 <= equivs[p] < equivMax
    requires forall p :: 0 <= p < |other| ==> 0 <= other[p] < equivMax
    requires changed.Length == |equivs| + 2 && forall i :: 0 <= i < changed.Length ==> !changed[i]
    modifies changed
    ensures Lists(index, undiscarded, equivs, Lines(changed[..]), |equivs|)
    ensures !changed[0] && !changed[|equivs| + 1]
    ensures |index| <= |equivs|
    ensures noDiscards ==> undiscarded == equivs && forall k :: 0 <= k < |index| ==> index[k] == k
    ensures forall p :: 0 <= p < |equivs| ==> (p in index <==> noDiscards || Final(Marks(equivs, other), p) == 0)
    ensures undiscarded == ToCompare(equivs, other, noDiscards)
  {
    hide Final, Kept, Count;
    var counts := CountCodes(other, equivMax);
    var discards := MarkLines(equivs, counts, other);
    SettleProvisional(discards);
    index, undiscarded := DiscardLines(equivs, discards, changed, noDiscards);
    assert forall p :: 0 <= p < |equivs| ==> Lines(changed[..])[p] == (!noDiscards && discards[p] != 0);
    ListedIsLeft(index, undiscarded, equivs, Lines(changed[..]));
    assert !noDiscards ==> Lines(changed[..]) == LeftOut(equivs, other);
  }

  /** Adjust both files' flags, one after the other. */
  method ShiftBoundaries(equivs0: seq<int>, changed0: array<bool>, equivs1: seq<int>, changed1: array<bool>, inhibit: bool)
    requires changed0 != changed1 && changed0.Length == |equivs0| + 2 && changed1.Length == |equivs1| + 2
    requires Bounded(changed0[..]) && Bounded(changed1[..])
    requires Matching(equivs0, Lines(changed0[..]), equivs1, Lines(changed1[..]))
    modifies changed0, changed1
    ensures Bounded(changed0[..]) && Bounded(changed1[..])
    ensures Matching(equivs0, Lines(changed0[..]), equivs1, Lines(changed1[..]))
    ensures Count(Lines(changed0[..]), 0, |equivs0|) == old(Count(Lines(changed0[..]), 0, |equivs0|))
    ensures Count(Lines(changed1[..]), 0, |equivs1|) == old(Count(Lines(changed1[..]), 0, |equivs1|))
    ensures !inhibit ==> forall start, i :: Run(Lines(changed1[..]), start, i)
                                            ==> Settled(equivs1, Lines(changed1[..]), Lines(changed0[..]), start, i)
  {
    if !inhibit {
      MatchingIsLevel(equivs0, Lines(changed0[..]), equivs1, Lines(changed1[..]));
      var first := new Shifter(changed0, changed1, equivs0);
      first.ShiftFile();
      MatchingIsLevel(equivs0, Lines(changed0[..]), equivs1, Lines(changed1[..]));
      var second := new Shifter(changed1, changed0, equivs1);
      second.ShiftFile();
    }
  }

  /** What `diff_2_files` promises of its script: it turns one file into the other. */
  ghost predicate Correct(script: seq<Change>, equivs0: seq<int>, equivs1: seq<int>) {
    && Apply(script, equivs0, equivs1, 0) == equivs1
    && exists f0, f1 :: Matching(equivs0, f0, equivs1, f1) && IsScript(script, f0, f1)
  }

  /** The script has no more deleted and inserted lines than any flags that match the files call for. */
  ghost predicate Shortest(script: seq<Change>, equivs0: seq<int>, equivs1: seq<int>) {
    && Size(script) == Distance(Whole(equivs0, equivs1))
    && forall g0, g1 :: Matching(equivs0, g0, equivs1, g1) ==> Size(script) <= Flagged(g0, g1)
  }

  lemma ScriptIsCorrect(script: seq<Change>, equivs0: seq<int>, f0: seq<bool>, equivs1: seq<int>, f1: seq<bool>)
    requires Matching(equivs0, f0, equivs1, f1) && IsScript(script, f0, f1)
    ensures Correct(script, equivs0, equivs1) && Size(script) == Flagged(f0, f1)
  {
    ApplyGivesOther(script, f0, f1, equivs0, equivs1, 0, 0);
    SizeIsFlags(script, f0, f1, 0, 0);
    assert equivs1[0..] == equivs1;
  }

  lemma ScriptIsShortest(script: seq<Change>, equivs0: seq<int>, equivs1: seq<int>)
    requires Size(script) == Distance(Whole(equivs0, equivs1))
    ensures Shortest(script, equivs0, equivs1)
  {
    forall g0, g1 | Matching(equivs0, g0, equivs1, g1)
      ensures Size(script) <= Flagged(g0, g1)
    {
      DistanceIsLeast(Whole(equivs0, equivs1), g0, g1, |equivs0|, |equivs1|);
    }
  }

  /** Compare the undiscarded lines. */
  method CompareLines(equivs0: seq<int>, index0: seq<nat>, xvec: seq<int>, changed0: array<bool>,
                      equivs1: seq<int>, index1: seq<nat>, yvec: seq<int>, changed1: array<bool>, noDiscards: bool, heuristic: bool)
    requires changed0 != changed1 && changed0.Length == |equivs0| + 2 && changed1.Length == |equivs1| + 2
    requires Bounded(changed0[..]) && Lists(index0, xvec, equivs0, Lines(changed0[..]), |equivs0|)
    requires Bounded(changed1[..]) && Lists(index1, yvec, equivs1, Lines(changed1[..]), |equivs1|)
    requires |xvec| + |yvec| + 3 < INT_MAX
    modifies changed0, changed1
    ensures Bounded(changed0[..]) && Bounded(changed1[..])
    ensures Matching(equivs0, Lines(changed0[..]), equivs1, Lines(changed1[..]))
    ensures noDiscards || Close(xvec, yvec, heuristic)
            ==> Flagged(Lines(changed0[..]), Lines(changed1[..])) == Distance(Whole(xvec, yvec)) + |equivs0| - |xvec| + |equivs1| - |yvec|
    ensures xvec == yvec ==> changed0[..] == old(changed0[..]) && changed1[..] == old(changed1[..])
  {
    hide Kept, Count, Cost;
    ghost var d0, d1 := changed0[..], changed1[..];
    var cmp := new Comparison(xvec, yvec, heuristic);
    var comparer := new Comparer(cmp, changed0, index0, changed1, index1);
    comparer.CompareSeq(0, |xvec|, 0, |yvec|, noDiscards);
    ComparedOnly(d0, changed0[..], index0, |equivs0|);
    ComparedOnly(d1, changed1[..], index1, |equivs1|);
    MatchingFromCompared(equivs0, index0, xvec, Lines(d0), Lines(changed0[..]), comparer.Flags0(),
                         equivs1, index1, yvec, Lines(d1), Lines(changed1[..]), comparer.Flags1());
  }

  /** Flag the lines of both files that a script deletes and inserts. */
  method FlagChanges(equivs0: seq<int>, equivs1: seq<int>, equivMax: nat, noDiscards: bool, heuristic: bool)
    returns (changed0: array<bool>, changed1: array<bool>)
    requires forall p :: 0 <= p < |equivs0| ==> 0 <= equivs0[p] < equivMax
    requires forall p :: 0 <= p < |equivs1| ==> 0 <= equivs1[p] < equivMax
    requires |equivs0| + |equivs1| + 3 < INT_MAX
    ensures fresh(changed0) && fresh(changed1) && changed0 != changed1
    ensures changed0.Length == |equivs0| + 2 && changed1.Length == |equivs1| + 2
    ensures Bounded(changed0[..]) && Bounded(changed1[..])
    ensures Matching(equivs0, Lines(changed0[..]), equivs1, Lines(changed1[..]))
    ensures Uncut(equivs0, equivs1, noDiscards, heuristic)
            ==> Flagged(Lines(changed0[..]), Lines(changed1[..])) == LeastFlags(equivs0, equivs1, noDiscards)
    ensures equivs0 == equivs1 ==> Flagged(Lines(changed0[..]), Lines(changed1[..])) == 0
  {
    hide Kept, Count, Cost;
    changed0 := new bool[|equivs0| + 2](_ => false);
    changed1 := new bool[|equivs1| + 2](_ => false);
    var index0, xvec := DiscardOne(equivs0, equivs1, equivMax, changed0, noDiscards);
    var index1, yvec := DiscardOne(equivs1, equivs0, equivMax, changed1, noDiscards);
    ghost var d0, d1 := changed0[..], changed1[..];
    CompareLines(equivs0, index0, xvec, changed0, equivs1, index1, yvec, changed1, noDiscards, heuristic);
    if equivs0 == equivs1 {
      AllCompared(equivs0, index0, xvec, d0, noDiscards);
      AllCompared(equivs1, index1, yvec, d1, noDiscards);
    }
  }

  /** Of equal files all lines are compared, and none is flagged to begin with. */
  lemma AllCompared(equivs: seq<int>, index: seq<nat>, codes: seq<int>, changed: seq<bool>, noDiscards: bool)
    requires |changed| == |equivs| + 2 && Lists(index, codes, equivs, Lines(changed), |equivs|)
    requires forall p :: 0 <= p < |equivs| ==> (p in index <==> noDiscards || Final(Marks(equivs, equivs), p) == 0)
    ensures codes == equivs && Count(Lines(changed), 0, |equivs|) == 0
  {
    hide Final, Count, Kept, Marks, Lists;
    var f := Lines(changed);
    forall p | 0 <= p < |equivs|
      ensures !f[p]
    {
      NothingDiscarded(equivs, p);
      ListedIsClear(index, codes, equivs, f, p);
    }
    ListedIsLeft(index, codes, equivs, f);
    KeptAll(equivs, f, 0, |equivs|);
  }

  lemma ListedIsClear(index: seq<nat>, codes: seq<int>, equivs: seq<int>, f: seq<bool>, p: int)
    requires Lists(index, codes, equivs, f, |equivs|) && p in index
    ensures 0 <= p < |f| && !f[p]
  {
  }

  /** Comparing touched neither the sentinels nor the discarded lines. */
  lemma ComparedOnly(before: seq<bool>, after: seq<bool>, index: seq<nat>, lines: nat)
    requires |before| == lines + 2 && Increasing(index, lines) && Bounded(before)
    requires OnlyChanges(before, after, index, 0, |index|)
    ensures Bounded(after)
    ensures forall p :: 0 <= p < lines && p !in index ==> Lines(after)[p] == Lines(before)[p]
  {
    forall p | 0 <= p < lines && p !in index
      ensures after[p + 1] == before[p + 1]
    {
      assert !Compared(index, p + 1);
    }
    assert !Compared(index, 0) && !Compared(index, lines + 1);
  }

  /** The differ, from codes to script; in the ed style the script comes out last change first. */
  method DiffFiles(equivs0: seq<int>, equivs1: seq<int>, equivMax: nat,
                   noDiscards: bool, heuristic: bool, inhibit: bool, edStyle: bool)
    returns (script: seq<Change>)
    requires forall p :: 0 <= p < |equivs0| ==> 0 <= equivs0[p] < equivMax
    requires forall p :: 0 <= p < |equivs1| ==> 0 <= equivs1[p] < equivMax
    requires |equivs0| + |equivs1| + 3 < INT_MAX
    ensures Correct(if edStyle then Reverse(script) else script, equivs0, equivs1)
    ensures Uncut(equivs0, equivs1, noDiscards, heuristic)
            ==> Size(if edStyle then Reverse(script) else script) == LeastFlags(equivs0, equivs1, noDiscards)
    ensures Exhaustive(equivs0, equivs1, noDiscards, heuristic) ==> Shortest(if edStyle then Reverse(script) else script, equivs0, equivs1)
    ensures equivs0 == equivs1 ==> script == []
  {
    hide Kept, Count, Cost, Exhaustive, Uncut, LeastFlags, Correct, Shortest, IsScript, Settled, Matching;
    ExhaustiveMeans(equivs0, equivs1, noDiscards, heuristic);
    var changed0, changed1 := FlagChanges(equivs0, equivs1, equivMax, noDiscards, heuristic);
    ShiftBoundaries(equivs0, changed0, equivs1, changed1, inhibit);
    ghost var f0, f1 := Lines(changed0[..]), Lines(changed1[..]);
    MatchingIsLevel(equivs0, f0, equivs1, f1);
    ghost var forward;
    if edStyle {
      script := BuildReverseScript(changed0, changed1);
      forward := Reverse(script);
    } else {
      script := BuildScript(changed0, changed1);
      forward := script;
    }
    ScriptIsCorrect(forward, equivs0, f0, equivs1, f1);
    if equivs0 == equivs1 {
      NoChange(forward, f0, f1);
    }
    if Exhaustive(equivs0, equivs1, noDiscards, heuristic) {
      LeastIsDistance(equivs0, f0, equivs1, f1, noDiscards);
      ScriptIsShortest(forward, equivs0, equivs1);
    }
  }

  lemma NoChange(script: seq<Change>, f0: seq<bool>, f1: seq<bool>)
    requires IsScript(script, f0, f1) && Size(script) == 0
    ensures script == []
  {
    if script != [] {
      SizeIsFlags(script[1..], f0, f1, script[0].End0(), script[0].End1());
    }
  }

  /** Both ways of building the script find the same one. */
  lemma BothStylesAgree(forward: seq<Change>, backward: seq<Change>, f0: seq<bool>, f1: seq<bool>)
    requires IsScript(forward, f0, f1) && IsScript(Reverse(backward), f0, f1)
    ensures forward == Reverse(backward)
  {
    ScriptIsUnique(forward, Reverse(backward), f0, f1, 0, 0);
  }
}
