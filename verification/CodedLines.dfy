/**
 Lines and their equivalence codes: what a script does to the codes it does to the lines.
 */
module CodedLines {
  import opened Text
  import opened Flags
  import opened Analyze

  /** Lines with the same code are the same. */
  ghost predicate Coded(a: File, codes0: seq<int>, b: File, codes1: seq<int>) {
    && |a| == |codes0| && |b| == |codes1|
    && forall i, j :: 0 <= i < |a| && 0 <= j < |b| && codes0[i] == codes1[j] ==> a[i] == b[j]
  }

  /** If the codes left over are the same, so are the lines left over. */
  lemma {:induction false} KeptLines(a: File, codes0: seq<int>, f0: seq<bool>, n: int, b: File, codes1: seq<int>, f1: seq<bool>, m: int)
    requires Coded(a, codes0, b, codes1) && |f0| == |a| && |f1| == |b| && 0 <= n <= |a| && 0 <= m <= |b|
    requires Kept(codes0, f0, 0, n) == Kept(codes1, f1, 0, m)
    ensures Kept(a, f0, 0, n) == Kept(b, f1, 0, m)
    decreases n + m
  {
    if n > 0 && f0[n - 1] {
      KeptLines(a, codes0, f0, n - 1, b, codes1, f1, m);
    } else if m > 0 && f1[m - 1] {
      KeptLines(a, codes0, f0, n, b, codes1, f1, m - 1);
    } else {
      LastKept(codes0, f0, n, codes1, f1, m);
      if n > 0 {
        KeptLines(a, codes0, f0, n - 1, b, codes1, f1, m - 1);
      }
    }
  }

  /** The flags leave over the same lines in both files. */
  ghost predicate SameLeft(a: File, f0: seq<bool>, b: File, f1: seq<bool>)
    requires |a| == |f0| && |b| == |f1|
  {
    Kept(a, f0, 0, |a|) == Kept(b, f1, 0, |b|)
  }

  lemma LinesLeft(a: File, codes0: seq<int>, f0: seq<bool>, b: File, codes1: seq<int>, f1: seq<bool>)
    requires Coded(a, codes0, b, codes1) && Matching(codes0, f0, codes1, f1)
    ensures SameLeft(a, f0, b, f1)
  {
    hide Kept;
    KeptLines(a, codes0, f0, |a|, b, codes1, f1, |b|);
  }
}
