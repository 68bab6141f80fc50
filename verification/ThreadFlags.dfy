/**
 The change flags of a two-way diff: its blocks' lines are flagged, and what is left over is the
 same in both files.  So what is known of flags, that some are as few as possible, is known of blocks.
 */
module ThreadFlags {
  import opened Text
  import Flags
  import opened CodedLines
  import opened Analyze
  import opened FewestLines
  import opened Diff3Blocks
  import opened Diff3Kinds

  ghost function Same(n: nat, flag: bool): (f: seq<bool>)
    ensures |f| == n && forall i :: 0 <= i < n ==> f[i] == flag
  {
    seq(n, _ => flag)
  }

  lemma {:induction false} KeptConcat(a: File, f: seq<bool>, b: File, g: seq<bool>)
    requires |a| == |f| && |b| == |g|
    ensures Flags.Kept(a + b, f + g, 0, |a + b|) == Flags.Kept(a, f, 0, |a|) + Flags.Kept(b, g, 0, |b|)
    ensures Flags.Count(f + g, 0, |f + g|) == Flags.Count(f, 0, |f|) + Flags.Count(g, 0, |g|)
    decreases |b|
  {
    hide Flags.Kept, Flags.Count;
    if b == [] {
      assert a + b == a && f + g == f;
      NothingKept(b, g);
    } else {
      var n := |b| - 1;
      var a', f', b', g' := a + b[..n], f + g[..n], b[..n], g[..n];
      KeptConcat(a, f, b', g');
      assert a + b == a' + [b[n]] && f + g == f' + [g[n]];
      KeptLast(a', f', b[n], g[n]);
      assert b == b' + [b[n]] && g == g' + [g[n]];
      KeptLast(b', g', b[n], g[n]);
    }
  }

  lemma NothingKept(a: File, f: seq<bool>)
    requires |a| == |f| == 0
    ensures Flags.Kept(a, f, 0, 0) == [] && Flags.Count(f, 0, 0) == 0
  {
  }

  lemma KeptLast(a: File, f: seq<bool>, x: Line, flag: bool)
    requires |a| == |f|
    ensures Flags.Kept(a + [x], f + [flag], 0, |a| + 1) == Flags.Kept(a, f, 0, |a|) + if flag then [] else [x]
    ensures Flags.Count(f + [flag], 0, |f| + 1) == Flags.Count(f, 0, |f|) + if flag then 1 else 0
  {
    Flags.KeptSame(a + [x], f + [flag], a, f, 0, |a|);
  }

  /** A common stretch, then a stretch that gives way, and then more. */
  lemma KeptStretch(a: File, x: File, y: File, rest: File, g: seq<bool>)
    requires |rest| == |g| && a == x + y + rest
    ensures var f := Same(|x|, false) + Same(|y|, true) + g;
            && |f| == |a| && Flags.Kept(a, f, 0, |a|) == x + Flags.Kept(rest, g, 0, |rest|)
            && Flags.Count(f, 0, |f|) == |y| + Flags.Count(g, 0, |g|)
  {
    hide Flags.Kept, Flags.Count;
    var u, v := Same(|x|, false), Same(|y|, true);
    KeptConcat(x + y, u + v, rest, g);
    KeptConcat(x, u, y, v);
    Flags.KeptAll(x, u, 0, |x|);
    Flags.KeptNone(y, v, 0, |y|);
    assert x[0..|x|] == x && x + [] == x;
  }

  /** Flags for what lies behind lines p and q. */
  lemma {:induction false} FlagsOf(u: seq<DiffBlock>, o: File, c: File, p: int, q: int) returns (f: seq<bool>, g: seq<bool>)
    requires Segment(u, o, c, p, q, |o|, |c|)
    ensures 0 <= p <= |o| && 0 <= q <= |c| && |f| == |o| - p && |g| == |c| - q
    ensures SameLeft(o[p..], f, c[q..], g) && Flagged(f, g) == Changed(u)
    decreases |u|
  {
    hide Flags.Kept, Flags.Count, Okay, Common, SameLeft;
    SegmentBounds(u, o, c, p, q, |o|, |c|);
    if u == [] {
      f, g := Same(|o| - p, false), Same(|c| - q, false);
      NothingFlagged(o, c, p, q, f, g);
    } else {
      var b := u[0];
      var f', g' := FlagsOf(u[1..], o, c, b.highO, b.highC);
      f, g := MoreFlags(b, o, c, p, q, f', g');
    }
  }

  lemma NothingFlagged(o: File, c: File, p: int, q: int, f: seq<bool>, g: seq<bool>)
    requires Common(o, c, p, q, |o|, |c|) && f == Same(|o| - p, false) && g == Same(|c| - q, false)
    ensures SameLeft(o[p..], f, c[q..], g) && Flagged(f, g) == 0
  {
    hide Flags.Kept, Flags.Count;
    assert o[p..] == o[p..|o|] && c[q..] == c[q..|c|];
    Flags.KeptAll(o[p..], f, 0, |f|);
    Flags.KeptAll(c[q..], g, 0, |g|);
  }

  /** One more block in front, and the common lines before it. */
  lemma MoreFlags(b: DiffBlock, o: File, c: File, p: int, q: int, f': seq<bool>, g': seq<bool>) returns (f: seq<bool>, g: seq<bool>)
    requires Okay(b, o, c) && Common(o, c, p, q, b.lowO - 1, b.lowC - 1) && |f'| == |o| - b.highO && |g'| == |c| - b.highC
    requires SameLeft(o[b.highO..], f', c[b.highC..], g')
    ensures |f| == |o| - p && |g| == |c| - q
    ensures SameLeft(o[p..], f, c[q..], g) && Flagged(f, g) == b.NumO() + b.NumC() + Flagged(f', g')
  {
    hide Flags.Kept, Flags.Count;
    f := Same(b.lowO - 1 - p, false) + Same(b.NumO(), true) + f';
    g := Same(b.lowC - 1 - q, false) + Same(b.NumC(), true) + g';
    Cut3(o, p, b.lowO - 1, b.highO);
    Cut3(c, q, b.lowC - 1, b.highC);
    KeptStretch(o[p..], o[p..b.lowO - 1], o[b.lowO - 1..b.highO], o[b.highO..], f');
    KeptStretch(c[q..], c[q..b.lowC - 1], c[b.lowC - 1..b.highC], c[b.highC..], g');
  }

  lemma Cut3(o: File, p: int, k: int, h: int)
    requires 0 <= p <= k <= h <= |o|
    ensures o[p..] == o[p..k] + o[k..h] + o[h..]
  {
  }

  /** Blocks that change no more lines than any flags do are as few as possible. */
  lemma FewestIsShortest(u: seq<DiffBlock>, o: File, c: File)
    requires IsThread(u, o, c) && 0 <= Changed(u) && Fewest(Changed(u), o, c)
    ensures ShortestThread(u, o, c)
  {
    hide Changed, Segment, Apart;
    forall v: seq<DiffBlock> | IsThread(v, o, c)
      ensures Changed(u) <= Changed(v)
    {
      var f, g := FlagsOf(v, o, c, 0, 0);
      assert o[0..] == o && c[0..] == c;
    }
  }
}
