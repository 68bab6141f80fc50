/**
 Change flags: one per line of a file, true for a line that is deleted or inserted.

 What the differ promises about its flags is always the same: the unflagged lines
 of the two files pair off.  So the central notion is the sequence of codes that
 the flags leave over.
 */
module Flags {

  /** The elements of s[lo..hi] that are not flagged, in order. */
  ghost function Kept<T>(s: seq<T>, f: seq<bool>, lo: int, hi: int): (r: seq<T>)
    requires |s| == |f| && 0 <= lo <= hi <= |s|
    ensures |r| <= hi - lo
    decreases hi - lo
  {
    if lo == hi then []
    else Kept(s, f, lo, hi - 1) + (if f[hi - 1] then [] else [s[hi - 1]])
  }

  /** The number of flagged lines from lo to hi. */
  ghost function Count(f: seq<bool>, lo: int, hi: int): (r: nat)
    requires 0 <= lo <= hi <= |f|
    ensures r <= hi - lo
    decreases hi - lo
  {
    if lo == hi then 0 else Count(f, lo, hi - 1) + (if f[hi - 1] then 1 else 0)
  }

  lemma {:induction false} KeptJoin<T>(s: seq<T>, f: seq<bool>, lo: int, mid: int, hi: int)
    requires |s| == |f| && 0 <= lo <= mid <= hi <= |s|
    ensures Kept(s, f, lo, hi) == Kept(s, f, lo, mid) + Kept(s, f, mid, hi)
    ensures Count(f, lo, hi) == Count(f, lo, mid) + Count(f, mid, hi)
    decreases hi - mid
  {
    if mid < hi {
      KeptJoin(s, f, lo, mid, hi - 1);
    }
  }

  /** Only the lines and flags between the bounds matter. */
  lemma {:induction false} KeptSame<T>(s: seq<T>, f: seq<bool>, t: seq<T>, g: seq<bool>, lo: int, hi: int)
    requires |s| == |f| && |t| == |g| && 0 <= lo <= hi <= |s| && hi <= |t|
    requires forall k :: lo <= k < hi ==> s[k] == t[k] && f[k] == g[k]
    ensures Kept(s, f, lo, hi) == Kept(t, g, lo, hi)
    ensures Count(f, lo, hi) == Count(g, lo, hi)
    decreases hi - lo
  {
    if lo < hi {
      KeptSame(s, f, t, g, lo, hi - 1);
    }
  }

  lemma {:induction false} KeptSize<T>(s: seq<T>, f: seq<bool>, lo: int, hi: int)
    requires |s| == |f| && 0 <= lo <= hi <= |s|
    ensures |Kept(s, f, lo, hi)| + Count(f, lo, hi) == hi - lo
    decreases hi - lo
  {
    if lo < hi {
      KeptSize(s, f, lo, hi - 1);
    }
  }

  lemma {:induction false} KeptNone<T>(s: seq<T>, f: seq<bool>, lo: int, hi: int)
    requires |s| == |f| && 0 <= lo <= hi <= |s|
    requires forall k :: lo <= k < hi ==> f[k]
    ensures Kept(s, f, lo, hi) == [] && Count(f, lo, hi) == hi - lo
    decreases hi - lo
  {
    if lo < hi {
      KeptNone(s, f, lo, hi - 1);
    }
  }

  lemma {:induction false} KeptAll<T>(s: seq<T>, f: seq<bool>, lo: int, hi: int)
    requires |s| == |f| && 0 <= lo <= hi <= |s|
    requires forall k :: lo <= k < hi ==> !f[k]
    ensures Kept(s, f, lo, hi) == s[lo..hi] && Count(f, lo, hi) == 0
    decreases hi - lo
  {
    if lo < hi {
      KeptAll(s, f, lo, hi - 1);
    }
  }

  /** The unflagged lines of the two ranges pair off, code by code. */
  ghost predicate Paired<T>(s: seq<T>, f: seq<bool>, lo0: int, hi0: int, t: seq<T>, g: seq<bool>, lo1: int, hi1: int)
    requires |s| == |f| && 0 <= lo0 <= hi0 <= |s|
    requires |t| == |g| && 0 <= lo1 <= hi1 <= |t|
  {
    Kept(s, f, lo0, hi0) == Kept(t, g, lo1, hi1)
  }

  /** The flags of the lines, without the two sentinels. */
  ghost function Lines(v: seq<bool>): (f: seq<bool>)
    requires 2 <= |v|
    ensures |f| == |v| - 2
    ensures forall p :: 0 <= p < |f| ==> f[p] == v[p + 1]
  {
    v[1..|v| - 1]
  }

  /** How many of the first p lines are unflagged. */
  ghost function Unflagged(f: seq<bool>, p: int): (u: nat)
    requires 0 <= p <= |f|
  {
    p - Count(f, 0, p)
  }

  lemma CountStep(f: seq<bool>, p: int)
    requires 0 <= p < |f|
    ensures Count(f, 0, p + 1) == Count(f, 0, p) + (if f[p] then 1 else 0)
    ensures Unflagged(f, p + 1) == Unflagged(f, p) + (if f[p] then 0 else 1)
  {
  }

  lemma {:induction false} UnflaggedGrows(f: seq<bool>, p: int, q: int)
    requires 0 <= p <= q <= |f|
    ensures Unflagged(f, p) <= Unflagged(f, q)
    ensures p < q && !f[p] ==> Unflagged(f, p) < Unflagged(f, q)
    decreases q - p
  {
    if p < q {
      CountStep(f, p);
      UnflaggedGrows(f, p + 1, q);
    }
  }
}
