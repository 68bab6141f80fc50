/**
 `build_script` and `build_reverse_script`: from flags to a list of changes.

 Both must find the same list, one from the end and one from the beginning.  The
 list is pinned down by `Between`: its changes are exactly the maximal stretches
 of flagged lines, separated by equal numbers of unchanged lines in both files.
 */
module Script {
  import opened Flags

  /** Lines line0.. of file 0 (deleted many) give way to lines line1.. of file 1 (inserted many). */
  datatype Change = Change(line0: int, line1: int, deleted: int, inserted: int) {
    function End0(): int { line0 + deleted }
    function End1(): int { line1 + inserted }
  }

  ghost predicate AllSet(f: seq<bool>, lo: int, hi: int)
    requires 0 <= lo <= hi <= |f|
  {
    forall p :: lo <= p < hi ==> f[p]
  }

  ghost predicate NoneSet(f: seq<bool>, lo: int, hi: int)
    requires 0 <= lo <= hi <= |f|
  {
    forall p :: lo <= p < hi ==> !f[p]
  }

  ghost predicate Ends(f: seq<bool>, p: int)
    requires 0 <= p <= |f|
  {
    p == |f| || !f[p]
  }

  /** The change covers a maximal stretch of flags, some line of at least one file. */
  ghost predicate Covers(c: Change, f0: seq<bool>, f1: seq<bool>) {
    && 0 <= c.line0 <= c.End0() <= |f0| && 0 <= c.line1 <= c.End1() <= |f1|
    && 0 < c.deleted + c.inserted
    && AllSet(f0, c.line0, c.End0()) && AllSet(f1, c.line1, c.End1())
    && Ends(f0, c.End0()) && Ends(f1, c.End1())
  }

  /** Two stretches without flags, of the same length. */
  ghost predicate Gap(f0: seq<bool>, f1: seq<bool>, a0: int, a1: int, b0: int, b1: int) {
    && 0 <= a0 <= b0 <= |f0| && 0 <= a1 <= b1 <= |f1| && b0 - a0 == b1 - a1
    && NoneSet(f0, a0, b0) && NoneSet(f1, a1, b1)
  }

  /** The changes are those that the flags call for between two pairs of positions. */
  ghost predicate Between(s: seq<Change>, f0: seq<bool>, f1: seq<bool>, a0: int, a1: int, b0: int, b1: int) {
    if s == [] then Gap(f0, f1, a0, a1, b0, b1)
    else
      && Gap(f0, f1, a0, a1, s[0].line0, s[0].line1)
      && Covers(s[0], f0, f1)
      && Between(s[1..], f0, f1, s[0].End0(), s[0].End1(), b0, b1)
  }

  /** A script for the whole of the two files. */
  ghost predicate IsScript(s: seq<Change>, f0: seq<bool>, f1: seq<bool>) {
    Between(s, f0, f1, 0, 0, |f0|, |f1|)
  }

  ghost function Reverse<T>(s: seq<T>): (r: seq<T>) {
    if s == [] then [] else Reverse(s[1..]) + [s[0]]
  }

  // ----- What the list of changes means

  /** There is only one such list. */
  lemma {:induction false} ScriptIsUnique(s: seq<Change>, t: seq<Change>, f0: seq<bool>, f1: seq<bool>, a0: int, a1: int)
    requires Between(s, f0, f1, a0, a1, |f0|, |f1|) && Between(t, f0, f1, a0, a1, |f0|, |f1|)
    ensures s == t
    decreases |s|
  {
    if s != [] && t != [] {
      SameFirst(s[0], t[0], f0, f1, a0, a1);
      ScriptIsUnique(s[1..], t[1..], f0, f1, s[0].End0(), s[0].End1());
    } else if s != [] {
      GapHasNoChange(s[0], f0, f1, a0, a1);
    } else if t != [] {
      GapHasNoChange(t[0], f0, f1, a0, a1);
    }
  }

  lemma NotEarlier(c: Change, d: Change, f0: seq<bool>, f1: seq<bool>, a0: int, a1: int)
    requires Gap(f0, f1, a0, a1, c.line0, c.line1) && Covers(c, f0, f1)
    requires Gap(f0, f1, a0, a1, d.line0, d.line1)
    ensures d.line0 <= c.line0
  {
    assert c.deleted > 0 ==> f0[c.line0];
    assert c.inserted > 0 ==> f1[c.line1];
  }

  lemma SameFirst(c: Change, d: Change, f0: seq<bool>, f1: seq<bool>, a0: int, a1: int)
    requires Gap(f0, f1, a0, a1, c.line0, c.line1) && Covers(c, f0, f1)
    requires Gap(f0, f1, a0, a1, d.line0, d.line1) && Covers(d, f0, f1)
    ensures c == d
  {
    NotEarlier(c, d, f0, f1, a0, a1);
    NotEarlier(d, c, f0, f1, a0, a1);
  }

  lemma GapHasNoChange(c: Change, f0: seq<bool>, f1: seq<bool>, a0: int, a1: int)
    requires Gap(f0, f1, a0, a1, c.line0, c.line1) && Covers(c, f0, f1)
    ensures !Gap(f0, f1, a0, a1, |f0|, |f1|)
  {
    assert c.deleted > 0 ==> f0[c.line0];
    assert c.inserted > 0 ==> f1[c.line1];
  }

  /** File 0 from line i0 on, with the changes made. */
  ghost function Apply<T>(s: seq<Change>, a: seq<T>, b: seq<T>, i0: int): seq<T>
    decreases |s|
  {
    if s == [] then (if 0 <= i0 <= |a| then a[i0..] else [])
    else if 0 <= i0 <= s[0].line0 <= |a| && 0 <= s[0].line1 <= s[0].End1() <= |b| then
      a[i0..s[0].line0] + b[s[0].line1..s[0].End1()] + Apply(s[1..], a, b, s[0].End0())
    else []
  }

  /** Making the changes turns file 0 into file 1. */
  lemma {:induction false} ApplyGivesOther<T>(s: seq<Change>, f0: seq<bool>, f1: seq<bool>, a: seq<T>, b: seq<T>, a0: int, a1: int)
    requires |a| == |f0| && |b| == |f1|
    requires Between(s, f0, f1, a0, a1, |a|, |b|)
    requires 0 <= a0 <= |a| && 0 <= a1 <= |b|
    requires Kept(a, f0, a0, |a|) == Kept(b, f1, a1, |b|)
    ensures Apply(s, a, b, a0) == b[a1..]
    decreases |s|
  {
    if s == [] {
      KeptAll(a, f0, a0, |a|);
      KeptAll(b, f1, a1, |b|);
      assert a[a0..] == a[a0..|a|] && b[a1..] == b[a1..|b|];
    } else {
      var c := s[0];
      SamePrefix(c, f0, f1, a, b, a0, a1);
      hide Kept;
      ApplyGivesOther(s[1..], f0, f1, a, b, c.End0(), c.End1());
      assert b[a1..c.line1] + b[c.line1..c.End1()] + b[c.End1()..] == b[a1..];
    }
  }

  /** Before the first change the files agree, and after it what is left over still agrees. */
  lemma SamePrefix<T>(c: Change, f0: seq<bool>, f1: seq<bool>, a: seq<T>, b: seq<T>, a0: int, a1: int)
    requires |a| == |f0| && |b| == |f1|
    requires Gap(f0, f1, a0, a1, c.line0, c.line1) && Covers(c, f0, f1)
    requires Kept(a, f0, a0, |a|) == Kept(b, f1, a1, |b|)
    ensures a[a0..c.line0] == b[a1..c.line1]
    ensures Kept(a, f0, c.End0(), |a|) == Kept(b, f1, c.End1(), |b|)
  {
    hide Kept, Count;
    KeptGapChange(c, f0, a, a0, c.line0, c.End0());
    KeptGapChange(c, f1, b, a1, c.line1, c.End1());
    var n, k := c.line0 - a0, Kept(a, f0, a0, |a|);
    assert a[a0..c.line0] == k[..n] && b[a1..c.line1] == k[..n];
    assert Kept(a, f0, c.End0(), |a|) == k[n..] && Kept(b, f1, c.End1(), |b|) == k[n..];
  }

  /** A stretch without flags and then one with flags leave over the former. */
  lemma KeptGapChange<T>(c: Change, f: seq<bool>, a: seq<T>, lo: int, mid: int, hi: int)
    requires |a| == |f| && 0 <= lo <= mid <= hi <= |a| && NoneSet(f, lo, mid) && AllSet(f, mid, hi)
    ensures Kept(a, f, lo, |a|) == a[lo..mid] + Kept(a, f, hi, |a|)
    ensures Count(f, lo, |f|) == hi - mid + Count(f, hi, |f|)
  {
    KeptAll(a, f, lo, mid);
    KeptNone(a, f, mid, hi);
    KeptJoin(a, f, lo, mid, |a|);
    KeptJoin(a, f, mid, hi, |a|);
  }

  /** The number of lines deleted and inserted by the changes. */
  ghost function Size(s: seq<Change>): int {
    if s == [] then 0 else s[0].deleted + s[0].inserted + Size(s[1..])
  }

  lemma {:induction false} SizeSplit(s: seq<Change>, n: nat)
    requires n <= |s|
    ensures Size(s) == Size(s[..n]) + Size(s[n..])
  {
    if n > 0 {
      SizeSplit(s[1..], n - 1);
      assert s[..n][1..] == s[1..][..n - 1] && s[1..][n - 1..] == s[n..];
    } else {
      assert s[n..] == s;
    }
  }

  lemma {:induction false} SizeIsFlags(s: seq<Change>, f0: seq<bool>, f1: seq<bool>, a0: int, a1: int)
    requires Between(s, f0, f1, a0, a1, |f0|, |f1|)
    requires 0 <= a0 <= |f0| && 0 <= a1 <= |f1|
    ensures Size(s) == Count(f0, a0, |f0|) + Count(f1, a1, |f1|)
    decreases |s|
  {
    if s == [] {
      KeptAll(f0, f0, a0, |f0|);
      KeptAll(f1, f1, a1, |f1|);
    } else {
      var c := s[0];
      KeptGapChange(c, f0, f0, a0, c.line0, c.End0());
      KeptGapChange(c, f1, f1, a1, c.line1, c.End1());
      SizeIsFlags(s[1..], f0, f1, c.End0(), c.End1());
    }
  }

  // ----- Extending a list at either end

  lemma {:induction false} AppendGap(s: seq<Change>, f0: seq<bool>, f1: seq<bool>, a0: int, a1: int, b0: int, b1: int)
    requires Between(s, f0, f1, a0, a1, b0, b1)
    requires 0 <= b0 < |f0| && 0 <= b1 < |f1| && !f0[b0] && !f1[b1]
    ensures Between(s, f0, f1, a0, a1, b0 + 1, b1 + 1)
    decreases |s|
  {
    if s != [] {
      AppendGap(s[1..], f0, f1, s[0].End0(), s[0].End1(), b0, b1);
    }
  }

  lemma {:induction false} AppendChange(s: seq<Change>, c: Change, f0: seq<bool>, f1: seq<bool>, a0: int, a1: int)
    requires Between(s, f0, f1, a0, a1, c.line0, c.line1) && Covers(c, f0, f1)
    ensures Between(s + [c], f0, f1, a0, a1, c.End0(), c.End1())
    decreases |s|
  {
    if s == [] {
      assert (s + [c])[1..] == [];
    } else {
      AppendChange(s[1..], c, f0, f1, s[0].End0(), s[0].End1());
      assert (s + [c])[1..] == s[1..] + [c];
    }
  }

  lemma PrependGap(s: seq<Change>, f0: seq<bool>, f1: seq<bool>, a0: int, a1: int)
    requires 0 < a0 <= |f0| && 0 < a1 <= |f1| && Between(s, f0, f1, a0, a1, |f0|, |f1|)
    requires !f0[a0 - 1] && !f1[a1 - 1]
    ensures Between(s, f0, f1, a0 - 1, a1 - 1, |f0|, |f1|)
  {
  }

  // ----- The methods

  /** A flag vector with its sentinels. */
  ghost predicate Bounded(v: seq<bool>) {
    2 <= |v| && !v[0] && !v[|v| - 1]
  }

  /** Equally many unflagged lines come before the two positions. */
  ghost predicate Level(f0: seq<bool>, f1: seq<bool>, p0: int, p1: int) {
    && 0 <= p0 <= |f0| && 0 <= p1 <= |f1|
    && Unflagged(f0, p0) == Unflagged(f1, p1)
    && Unflagged(f0, |f0|) == Unflagged(f1, |f1|)
  }

  /** Level positions with no flag ahead are both at the end or both before it. */
  lemma LevelAhead(f0: seq<bool>, f1: seq<bool>, p0: int, p1: int)
    requires Level(f0, f1, p0, p1) && Ends(f0, p0) && Ends(f1, p1)
    ensures p0 == |f0| <==> p1 == |f1|
    ensures p0 < |f0| ==> Level(f0, f1, p0 + 1, p1 + 1)
  {
    UnflaggedGrows(f0, p0, |f0|);
    UnflaggedGrows(f1, p1, |f1|);
    if p0 < |f0| {
      CountStep(f0, p0);
    }
    if p1 < |f1| {
      CountStep(f1, p1);
    }
  }

  lemma LevelBehind(f0: seq<bool>, f1: seq<bool>, p0: int, p1: int)
    requires Level(f0, f1, p0, p1) && (0 < p0 ==> !f0[p0 - 1]) && (0 < p1 ==> !f1[p1 - 1])
    ensures p0 == 0 <==> p1 == 0
    ensures 0 < p0 ==> Level(f0, f1, p0 - 1, p1 - 1)
  {
    if 0 < p0 {
      CountStep(f0, p0 - 1);
    }
    if 0 < p1 {
      CountStep(f1, p1 - 1);
    }
  }

  /** The end of the flagged lines that begin at line p. */
  method SkipChanged(changed: array<bool>, p: int) returns (q: int)
    requires Bounded(changed[..]) && 0 <= p <= changed.Length - 2
    ensures p <= q <= changed.Length - 2 && AllSet(Lines(changed[..]), p, q) && Ends(Lines(changed[..]), q)
    ensures Unflagged(Lines(changed[..]), q) == Unflagged(Lines(changed[..]), p)
  {
    q := p;
    while changed[q + 1]
      invariant p <= q <= changed.Length - 2 && AllSet(Lines(changed[..]), p, q)
      invariant Unflagged(Lines(changed[..]), q) == Unflagged(Lines(changed[..]), p)
      decreases changed.Length - q
    {
      CountStep(Lines(changed[..]), q);
      q := q + 1;
    }
  }

  /** The beginning of the flagged lines that end before line p. */
  method SkipChangedBack(changed: array<bool>, p: int) returns (q: int)
    requires Bounded(changed[..]) && 0 <= p <= changed.Length - 2
    ensures 0 <= q <= p && AllSet(Lines(changed[..]), q, p) && (0 < q ==> !Lines(changed[..])[q - 1])
    ensures Unflagged(Lines(changed[..]), q) == Unflagged(Lines(changed[..]), p)
  {
    q := p;
    while changed[q]
      invariant 0 <= q <= p && AllSet(Lines(changed[..]), q, p)
      invariant Unflagged(Lines(changed[..]), q) == Unflagged(Lines(changed[..]), p)
      decreases q
    {
      CountStep(Lines(changed[..]), q - 1);
      q := q - 1;
    }
  }

  lemma {:induction false} ReverseLast<T>(s: seq<T>, c: T)
    ensures Reverse([c] + s) == Reverse(s) + [c]
  {
    assert ([c] + s)[1..] == s;
  }

  /** Scan forwards; each change is put in front of those already found. */
  method BuildReverseScript(changed0: array<bool>, changed1: array<bool>) returns (script: seq<Change>)
    requires Bounded(changed0[..]) && Bounded(changed1[..])
    requires Level(Lines(changed0[..]), Lines(changed1[..]), changed0.Length - 2, changed1.Length - 2)
    ensures IsScript(Reverse(script), Lines(changed0[..]), Lines(changed1[..]))
  {
    hide Count, Between, Reverse, Level, Unflagged, Covers;
    ghost var f0, f1 := Lines(changed0[..]), Lines(changed1[..]);
    var len0, len1 := changed0.Length - 2, changed1.Length - 2;
    var i0, i1 := 0, 0;
    script := [];
    LevelStart(f0, f1);
    while i0 < len0 || i1 < len1
      invariant (i0 <= len0 && i1 <= len1) || (i0 == len0 + 1 && i1 == len1 + 1)
      invariant i0 <= len0 ==> Level(f0, f1, i0, i1) && Between(Reverse(script), f0, f1, 0, 0, i0, i1)
      invariant i0 > len0 ==> Between(Reverse(script), f0, f1, 0, 0, len0, len1)
      decreases len0 + len1 + 2 - i0 - i1
    {
      if changed0[i0 + 1] || changed1[i1 + 1] {
        var line0, line1 := i0, i1;
        i0 := SkipChanged(changed0, i0);
        i1 := SkipChanged(changed1, i1);
        LevelSkip(f0, f1, line0, line1, i0, i1);
        ChangeCovers(f0, f1, line0, line1, i0, i1);
        var change := Change(line0, line1, i0 - line0, i1 - line1);
        AddChange(script, f0, f1, change);
        script := [change] + script;
      }
      LevelAhead(f0, f1, i0, i1);
      if i0 < len0 {
        AppendGap(Reverse(script), f0, f1, 0, 0, i0, i1);
      }
      i0, i1 := i0 + 1, i1 + 1;
    }
    if i0 <= len0 {
      assert i0 == len0 && i1 == len1;
    }
  }

  lemma LevelStart(f0: seq<bool>, f1: seq<bool>)
    requires Level(f0, f1, |f0|, |f1|)
    ensures Level(f0, f1, 0, 0) && Between(Reverse([]), f0, f1, 0, 0, 0, 0)
  {
  }

  lemma LevelSkip(f0: seq<bool>, f1: seq<bool>, p0: int, p1: int, q0: int, q1: int)
    requires Level(f0, f1, p0, p1) && 0 <= q0 <= |f0| && 0 <= q1 <= |f1|
    requires Unflagged(f0, q0) == Unflagged(f0, p0) && Unflagged(f1, q1) == Unflagged(f1, p1)
    ensures Level(f0, f1, q0, q1)
  {
  }

  lemma ChangeCovers(f0: seq<bool>, f1: seq<bool>, p0: int, p1: int, q0: int, q1: int)
    requires 0 <= p0 <= q0 <= |f0| && AllSet(f0, p0, q0) && Ends(f0, q0)
    requires 0 <= p1 <= q1 <= |f1| && AllSet(f1, p1, q1) && Ends(f1, q1)
    requires p0 < q0 || p1 < q1
    ensures Covers(Change(p0, p1, q0 - p0, q1 - p1), f0, f1)
  {
  }

  /** One more change, put in front of those found before it. */
  lemma AddChange(script: seq<Change>, f0: seq<bool>, f1: seq<bool>, c: Change)
    requires Between(Reverse(script), f0, f1, 0, 0, c.line0, c.line1) && Covers(c, f0, f1)
    ensures Between(Reverse([c] + script), f0, f1, 0, 0, c.End0(), c.End1())
  {
    AppendChange(Reverse(script), c, f0, f1, 0, 0);
    ReverseLast(script, c);
  }

  /** The changes from these lines on have been found; no flagged line is next. */
  ghost predicate FoundFrom(script: seq<Change>, f0: seq<bool>, f1: seq<bool>, i0: int, i1: int) {
    && Level(f0, f1, i0, i1) && Ends(f0, i0) && Ends(f1, i1)
    && Between(script, f0, f1, i0, i1, |f0|, |f1|)
  }

  /** A change, if there are flags before these lines, and then an unchanged line of both files, or the beginning of both. */
  lemma FoundMore(script: seq<Change>, f0: seq<bool>, f1: seq<bool>, l0: int, l1: int, i0: int, i1: int, more: seq<Change>)
    requires FoundFrom(script, f0, f1, l0, l1) && 0 <= i0 <= l0 && 0 <= i1 <= l1
    requires AllSet(f0, i0, l0) && Unflagged(f0, i0) == Unflagged(f0, l0) && (0 < i0 ==> !f0[i0 - 1])
    requires AllSet(f1, i1, l1) && Unflagged(f1, i1) == Unflagged(f1, l1) && (0 < i1 ==> !f1[i1 - 1])
    requires more == if i0 < l0 || i1 < l1 then [Change(i0, i1, l0 - i0, l1 - i1)] + script else script
    ensures i0 == 0 <==> i1 == 0
    ensures if 0 < i0 then FoundFrom(more, f0, f1, i0 - 1, i1 - 1) else IsScript(more, f0, f1)
  {
    hide Unflagged;
    assert more == script || more[1..] == script;
    assert Between(more, f0, f1, i0, i1, |f0|, |f1|);
    LevelBehind(f0, f1, i0, i1);
    if 0 < i0 {
      hide Level;
      PrependGap(more, f0, f1, i0, i1);
    }
  }

  lemma NoneFound(f0: seq<bool>, f1: seq<bool>)
    requires Level(f0, f1, |f0|, |f1|)
    ensures FoundFrom([], f0, f1, |f0|, |f1|)
  {
  }

  /** Scan backwards; the list comes out in forward order. */
  method BuildScript(changed0: array<bool>, changed1: array<bool>) returns (script: seq<Change>)
    requires Bounded(changed0[..]) && Bounded(changed1[..])
    requires Level(Lines(changed0[..]), Lines(changed1[..]), changed0.Length - 2, changed1.Length - 2)
    ensures IsScript(script, Lines(changed0[..]), Lines(changed1[..]))
  {
    hide Level, FoundFrom, IsScript, Unflagged;
    ghost var f0, f1 := Lines(changed0[..]), Lines(changed1[..]);
    var i0, i1 := changed0.Length - 2, changed1.Length - 2;
    script := [];
    NoneFound(f0, f1);
    while i0 >= 0 || i1 >= 0
      invariant (0 <= i0 <= |f0| && 0 <= i1 <= |f1|) || (i0 == -1 && i1 == -1)
      invariant if 0 <= i0 then FoundFrom(script, f0, f1, i0, i1) else IsScript(script, f0, f1)
      decreases i0 + i1 + 2
    {
      ghost var found := script;
      var line0, line1 := i0, i1;
      if changed0[i0] || changed1[i1] {
        i0 := SkipChangedBack(changed0, i0);
        i1 := SkipChangedBack(changed1, i1);
        script := [Change(i0, i1, line0 - i0, line1 - i1)] + script;
      }
      FoundMore(found, f0, f1, line0, line1, i0, i1, script);
      i0, i1 := i0 - 1, i1 - 1;
    }
  }
}
