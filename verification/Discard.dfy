/**
 `discard_confusing_lines`: set aside lines that cannot match, or match too often.

 A line whose code does not occur in the other file is discarded for good (mark 1).
 A line whose code occurs very often there is discarded provisionally (mark 2), and
 stays so only in the middle of a run of discarded lines.
 */
module Discard {
  import opened Flags
  import opened CompareSeq

  // ----- Counting

  ghost function Occurrences<T>(equivs: seq<T>, code: T, n: int): (r: nat)
    requires 0 <= n <= |equivs|
    ensures r == 0 <==> code !in equivs[..n]
  {
    if n == 0 then 0
    else
      assert equivs[..n] == equivs[..n - 1] + [equivs[n - 1]];
      Occurrences(equivs, code, n - 1) + (if equivs[n - 1] == code then 1 else 0)
  }

  /** The number of lines in each equivalence class. */
  method CountCodes(equivs: seq<int>, equivMax: nat) returns (counts: array<nat>)
    requires forall p :: 0 <= p < |equivs| ==> 0 <= equivs[p] < equivMax
    ensures fresh(counts) && counts.Length == equivMax
    ensures forall c :: 0 <= c < equivMax ==> counts[c] == Occurrences(equivs, c, |equivs|)
  {
    counts := new nat[equivMax](_ => 0);
    for i := 0 to |equivs|
      invariant forall c :: 0 <= c < equivMax ==> counts[c] == Occurrences(equivs, c, i)
    {
      counts[equivs[i]] := counts[equivs[i]] + 1;
    }
  }

  /** What a line is marked with, given how often its code occurs in the other file. */
  ghost function Mark(code: int, matches: nat, many: nat): int {
    if code == 0 then 0 else if matches == 0 then 1 else if matches > many then 2 else 0
  }

  /** A provisional mark takes more matches than this: five times an approximate square root of the lines over 64. */
  function Many(lines: nat): nat {
    5 * Root(lines / 64)
  }

  /** The marks of file equivs against file other. */
  ghost function Marks(equivs: seq<int>, other: seq<int>): (marks: seq<int>)
    ensures |marks| == |equivs|
    ensures forall p :: 0 <= p < |marks| ==> marks[p] == Mark(equivs[p], Occurrences(other, equivs[p], |other|), Many(|equivs|))
  {
    seq(|equivs|, p requires 0 <= p < |equivs| => Mark(equivs[p], Occurrences(other, equivs[p], |other|), Many(|equivs|)))
  }

  function Root(n: nat): (r: nat)
    ensures 1 <= r
    decreases n
  {
    if n / 4 > 0 then 2 * Root(n / 4) else 1
  }

  /** It is at most the square root, and more than half of it. */
  lemma {:induction false} RootIsClose(n: nat)
    requires 0 < n
    ensures Root(n) * Root(n) <= n < 4 * (Root(n) * Root(n))
    decreases n
  {
    var m, r := n / 4, Root(n / 4);
    if m > 0 {
      assert Root(n) * Root(n) == 4 * (r * r);
      RootIsClose(m);
    }
  }

  /** Root of any number that has tem as its quarter. */
  function Root4(tem: nat): nat {
    if tem > 0 then 2 * Root(tem) else 1
  }

  /** Multiply by the approximate square root, computed by shifting. */
  method TimesRoot(factor: nat, n: nat) returns (product: nat)
    requires 0 < factor
    ensures product == factor * Root(n) && factor <= product
  {
    product := factor;
    var tem: nat := n / 4;
    while tem > 0
      invariant product * Root4(tem) == factor * Root(n) && factor <= product
    {
      assert product * Root4(tem) == product * (2 * Root4(tem / 4)) == product * 2 * Root4(tem / 4);
      product, tem := product * 2, tem / 4;
    }
  }

  method MarkLines(equivs: seq<int>, counts: array<nat>, ghost other: seq<int>) returns (discards: array<int>)
    requires forall p :: 0 <= p < |equivs| ==> 0 <= equivs[p] < counts.Length
    requires forall c :: 0 <= c < counts.Length ==> counts[c] == Occurrences(other, c, |other|)
    ensures fresh(discards) && discards[..] == Marks(equivs, other)
  {
    discards := new int[|equivs|](_ => 0);
    var many := TimesRoot(5, |equivs| / 64);
    for i := 0 to |equivs|
      invariant forall p :: 0 <= p < i ==> discards[p] == Mark(equivs[p], Occurrences(other, equivs[p], |other|), many)
      invariant forall p :: i <= p < |equivs| ==> discards[p] == 0
    {
      if equivs[i] != 0 {
        var matches := counts[equivs[i]];
        if matches == 0 {
          discards[i] := 1;
        } else if matches > many {
          discards[i] := 2;
        }
      }
    }
  }

  // ----- Which provisional marks stay

  /** A subrun of this many provisional marks is too long for a run of the given length. */
  function Threshold(length: nat): nat {
    Root(length / 4) + 1
  }

  ghost predicate AreMarks(d: seq<int>) {
    forall p :: 0 <= p < |d| ==> d[p] == 0 || d[p] == 1 || d[p] == 2
  }

  /** Every line from a to b is marked. */
  ghost predicate Joined(d: seq<int>, a: int, b: int) {
    0 <= a && b < |d| && forall p :: a <= p <= b ==> d[p] != 0
  }

  /** The permanent marks a and b are the first and the last in a stretch of marked lines. */
  ghost predicate IsRun(d: seq<int>, a: int, b: int) {
    && 0 <= a <= b && Joined(d, a, b) && d[a] == 1 && d[b] == 1
    && (forall x :: 0 <= x < a && d[x] == 1 ==> !Joined(d, x, a))
    && forall x :: b < x < |d| && d[x] == 1 ==> !Joined(d, b, x)
  }

  /** The number of provisional marks from line a up to line n. */
  ghost function Provisionals(d: seq<int>, a: int, n: int): (r: nat)
    requires 0 <= a <= n <= |d|
    ensures r <= n - a
    decreases n - a
  {
    if a == n then 0 else Provisionals(d, a, n - 1) + (if d[n - 1] == 2 then 1 else 0)
  }

  /** The n lines from l on all have provisional marks. */
  ghost predicate AllTwos(d: seq<int>, l: int, n: int) {
    0 <= l && l + n <= |d| && forall p :: l <= p < l + n ==> d[p] == 2
  }

  /** Line p is in a stretch of n provisional marks between lines a and b. */
  ghost predicate InLong(d: seq<int>, a: int, b: int, n: int, p: int) {
    exists l :: a <= l <= p < l + n <= b + 1 && AllTwos(d, l, n)
  }

  /** Seen from line a, provisional marks after line s may stand: permanent marks have come that are many or late enough. */
  ghost predicate OpensAt(d: seq<int>, a: int, s: int) {
    && 0 <= a <= s < |d| && d[s] == 1
    && (a + 8 <= s || (a + 2 <= s && d[s - 1] == 1 && d[s - 2] == 1))
  }

  /** Likewise, seen from line b, those before line s. */
  ghost predicate ClosesAt(d: seq<int>, b: int, s: int) {
    && 0 <= s <= b < |d| && d[s] == 1
    && (s <= b - 8 || (s <= b - 2 && d[s + 1] == 1 && d[s + 2] == 1))
  }

  ghost predicate Opened(d: seq<int>, a: int, p: int) {
    exists s :: s < p && OpensAt(d, a, s)
  }

  ghost predicate Closed(d: seq<int>, b: int, p: int) {
    exists s :: p < s && ClosesAt(d, b, s)
  }

  /** The run is not provisional for more than a quarter, and line p is inside, well away from both ends and in no long subrun. */
  ghost predicate Stands(d: seq<int>, a: int, b: int, p: int) {
    && 0 <= a < p < b < |d|
    && Provisionals(d, a, b + 1) * 4 <= b + 1 - a
    && !InLong(d, a, b, Threshold(b + 1 - a), p)
    && Opened(d, a, p) && Closed(d, b, p)
  }

  /** What becomes of the marks of a run and the provisional ones after it. */
  ghost predicate RunSettled(before: seq<int>, after: seq<int>, a: int, b: int, end: int) {
    && |after| == |before| && 0 <= a <= b < end <= |before|
    && forall p :: a <= p < end ==> after[p] == if before[p] == 2 && !Stands(before, a, b, p) then 0 else before[p]
  }

  ghost predicate SameOutside(before: seq<int>, after: seq<int>, a: int, end: int) {
    |after| == |before| && forall p :: 0 <= p < |before| && !(a <= p < end) ==> after[p] == before[p]
  }

  /** What becomes of the mark of line p: only a provisional one in its place in a run stays a provisional one. */
  ghost function Final(marks: seq<int>, p: int): int
    requires 0 <= p < |marks|
  {
    if marks[p] == 2 && !(exists a, b :: IsRun(marks, a, b) && Stands(marks, a, b, p)) then 0 else marks[p]
  }

  lemma RunIsUnique(d: seq<int>, a: int, b: int, a': int, b': int, p: int)
    requires IsRun(d, a, b) && IsRun(d, a', b') && a < p < b && a' < p < b'
    ensures a == a' && b == b'
  {
    assert a' < a ==> Joined(d, a', a);
    assert a < a' ==> Joined(d, a, a');
    assert b' < b ==> Joined(d, b', b);
    assert b < b' ==> Joined(d, b, b');
  }

  lemma {:induction false} SameProvisionals(d: seq<int>, d': seq<int>, a: int, n: int)
    requires 0 <= a <= n <= |d| == |d'| && forall p :: a <= p < n ==> d'[p] == d[p]
    ensures Provisionals(d', a, n) == Provisionals(d, a, n)
    decreases n - a
  {
    if a < n {
      SameProvisionals(d, d', a, n - 1);
    }
  }

  /** Whether a mark stands depends on its run only. */
  lemma SameStands(d: seq<int>, d': seq<int>, a: int, b: int, p: int)
    requires |d| == |d'| && 0 <= a <= b < |d| && forall q :: a <= q <= b ==> d'[q] == d[q]
    requires Stands(d, a, b, p)
    ensures Stands(d', a, b, p)
  {
    SameProvisionals(d, d', a, b + 1);
    var s :| s < p && OpensAt(d, a, s);
    assert OpensAt(d', a, s);
    var e :| p < e && ClosesAt(d, b, e);
    assert ClosesAt(d', b, e);
    var n := Threshold(b + 1 - a);
    if InLong(d', a, b, n, p) {
      var l :| a <= l <= p < l + n <= b + 1 && AllTwos(d', l, n);
      assert AllTwos(d, l, n);
    }
  }

  // ----- One run

  /** The scan has settled the first n lines of the run from line i on. */
  ghost predicate Scanned(was: seq<int>, d: seq<int>, i: int, length: int, minimum: int, n: int) {
    && |d| == |was| && 0 <= i <= i + n <= i + length <= |d|
    && forall p :: 0 <= p < |d| ==>
         d[p] == if i <= p < i + n && InLong(was, i, i + length - 1, minimum, p) then 0 else was[p]
  }

  /** Just before the j-th line there are so many provisional marks, and not more. */
  ghost predicate Pending(was: seq<int>, i: int, j: int, consec: int) {
    0 <= i && 0 <= consec <= j && AllTwos(was, i + j - consec, consec) && (consec == j || was[i + j - consec - 1] != 2)
  }

  /** Fewer provisional marks between two lines without are in no long stretch. */
  lemma NotLong(was: seq<int>, i: int, b: int, minimum: int, j: int, consec: int)
    requires 0 <= i <= i + j <= b + 1 <= |was| && Pending(was, i, j, consec) && consec < minimum
    requires i + j == b + 1 || was[i + j] != 2
    ensures forall p :: i + j - consec <= p < i + j ==> !InLong(was, i, b, minimum, p)
  {
    forall p | i + j - consec <= p < i + j
      ensures !InLong(was, i, b, minimum, p)
    {
      forall l | i <= l <= p < l + minimum <= b + 1
        ensures !AllTwos(was, l, minimum)
      {
        if l + minimum > i + j {
          assert was[i + j] != 2;
        } else {
          assert was[i + j - consec - 1] != 2;
        }
      }
    }
  }

  lemma IsLong(was: seq<int>, a: int, b: int, minimum: int, l: int, n: int, p: int)
    requires AllTwos(was, l, n) && a <= l <= p < l + n <= b + 1 && minimum <= n && 0 < minimum
    ensures InLong(was, a, b, minimum, p)
  {
    var m := if p - minimum + 1 >= l then p - minimum + 1 else l;
    assert AllTwos(was, m, minimum);
  }

  /**
   Leave no stretch of at least minimum provisional marks in the run from line i on: when one is
   recognised, the index returns to where the stretch began, and the stretch is unmarked.
   */
  method CancelLongSubruns(d: array<int>, i: nat, length: nat, minimum: nat)
    requires i + length <= d.Length && 2 <= minimum
    modifies d
    ensures Scanned(old(d[..]), d[..], i, length, minimum, length)
  {
    hide InLong, Pending;
    ghost var was := d[..];
    var j, consec := 0, 0;
    ghost var seen, first := 0, 0;  // how far the scan has got, and where the stretch began that it backed up to
    NothingScanned(was, i, length, minimum);
    while j < length
      invariant 0 <= j <= seen <= length && 0 <= consec
      invariant Scanned(was, d[..], i, length, minimum, if consec < minimum then j - consec else j)
      invariant consec < minimum ==> seen == j && Pending(was, i, j, consec)
      invariant minimum <= consec ==> 0 <= first <= j && first + minimum <= seen && AllTwos(was, i + first, seen - first)
      decreases length - seen, length - j
    {
      ghost var before := d[..];
      PendingNext(was, i, j, consec);
      if d[i + j] != 2 {
        ScannedPast(was, before, i, length, minimum, j, consec);
        consec := 0;
      } else {
        consec := consec + 1;
        if consec == minimum {
          first := j + 1 - consec;
          PendingTwos(was, i, j + 1, consec);
          seen := j + 1;
          j := j - consec;
        } else if minimum < consec {
          d[i + j] := 0;
          IsLong(was, i, i + length - 1, minimum, i + first, (if seen < j + 1 then j + 1 else seen) - first, i + j);
        }
      }
      j := j + 1;
      if seen < j {
        seen := j;
      }
    }
    if consec < minimum {
      ScannedPast(was, d[..], i, length, minimum, length, consec);
    }
  }

  lemma NothingScanned(was: seq<int>, i: int, length: int, minimum: int)
    requires 0 <= i <= i + length <= |was|
    ensures Scanned(was, was, i, length, minimum, 0) && Pending(was, i, 0, 0)
  {
  }

  lemma PendingNext(was: seq<int>, i: int, j: int, consec: int)
    requires 0 <= i <= i + j < |was|
    ensures was[i + j] != 2 ==> Pending(was, i, j + 1, 0)
    ensures was[i + j] == 2 && Pending(was, i, j, consec) ==> Pending(was, i, j + 1, consec + 1)
  {
  }

  lemma PendingTwos(was: seq<int>, i: int, j: int, consec: int)
    requires Pending(was, i, j, consec)
    ensures consec <= j && AllTwos(was, i + j - consec, consec)
  {
  }

  /** A line without a provisional mark, or the end, settles the few lines before it. */
  lemma ScannedPast(was: seq<int>, d: seq<int>, i: int, length: int, minimum: int, j: int, consec: int)
    requires 0 < minimum && 0 <= j <= length
    requires Scanned(was, d, i, length, minimum, if consec < minimum then j - consec else j)
    requires consec < minimum ==> Pending(was, i, j, consec)
    requires j == length || was[i + j] != 2
    ensures Scanned(was, d, i, length, minimum, if j == length then j else j + 1)
  {
    if consec < minimum {
      NotLong(was, i, i + length - 1, minimum, j, consec);
    }
    assert j < length ==> !InLong(was, i, i + length - 1, minimum, i + j);
  }

  /** What lines from a to b are left with when those not opened are cancelled. */
  ghost predicate StartCancelled(was: seq<int>, d: seq<int>, a: int, b: int) {
    && |d| == |was|
    && forall p :: 0 <= p < |d| ==> d[p] == if a <= p <= b && was[p] == 2 && !Opened(was, a, p) then 0 else was[p]
  }

  ghost predicate EndCancelled(was: seq<int>, d: seq<int>, a: int, b: int) {
    && |d| == |was|
    && forall p :: 0 <= p < |d| ==> d[p] == if a <= p <= b && was[p] == 2 && !Closed(was, b, p) then 0 else was[p]
  }

  /** Cancel provisionals from one end until three permanent marks in a row, or one at least eight lines in. */
  method CancelFromStart(d: array<int>, i: nat, length: nat)
    requires i + length <= d.Length && AreMarks(d[..])
    modifies d
    ensures StartCancelled(old(d[..]), d[..], i, i + length - 1)
  {
    ghost var was := d[..];
    var j, consec := 0, 0;
    while j < length
      invariant 0 <= j <= length && 0 <= consec <= 2
      invariant forall p :: i <= p < i + j ==> d[p] == if was[p] == 2 then 0 else was[p]
      invariant forall p :: 0 <= p < d.Length && !(i <= p < i + j) ==> d[p] == was[p]
      invariant forall s :: i <= s < i + j ==> !OpensAt(was, i, s)
      invariant consec <= j && forall p :: i + j - consec <= p < i + j ==> was[p] == 1
      invariant consec < 2 && consec < j ==> was[i + j - consec - 1] != 1
    {
      if j >= 8 && d[i + j] == 1 {
        assert OpensAt(was, i, i + j);
        break;
      }
      if d[i + j] == 2 {
        consec := 0;
        d[i + j] := 0;
      } else if d[i + j] == 0 {
        consec := 0;
      } else {
        consec := consec + 1;
      }
      if consec == 3 {
        assert OpensAt(was, i, i + j);
        break;
      }
      j := j + 1;
    }
  }

  /** The same from the other end, which is line i. */
  method CancelFromEnd(d: array<int>, i: nat, length: nat)
    requires length <= i + 1 <= d.Length && AreMarks(d[..])
    modifies d
    ensures EndCancelled(old(d[..]), d[..], i + 1 - length, i)
  {
    ghost var was := d[..];
    var j, consec := 0, 0;
    while j < length
      invariant 0 <= j <= length && 0 <= consec <= 2
      invariant forall p :: i - j < p <= i ==> d[p] == if was[p] == 2 then 0 else was[p]
      invariant forall p :: 0 <= p < d.Length && !(i - j < p <= i) ==> d[p] == was[p]
      invariant forall s :: i - j < s <= i ==> !ClosesAt(was, i, s)
      invariant consec <= j && forall p :: i - j < p <= i - j + consec ==> was[p] == 1
      invariant consec < 2 && consec < j ==> was[i - j + consec + 1] != 1
    {
      if j >= 8 && d[i - j] == 1 {
        assert ClosesAt(was, i, i - j);
        break;
      }
      if d[i - j] == 2 {
        consec := 0;
        d[i - j] := 0;
      } else if d[i - j] == 0 {
        consec := 0;
      } else {
        consec := consec + 1;
      }
      if consec == 3 {
        assert ClosesAt(was, i, i - j);
        break;
      }
      j := j + 1;
    }
  }

  /** Lines from i up to end are marked, those from j on provisionally, and line j - 1 is not. */
  ghost predicate Stretch(d: seq<int>, i: int, j: int, end: int) {
    && 0 <= i < j <= end <= |d| && d[i] == 1 && d[j - 1] == 1
    && (forall p :: i <= p < end ==> d[p] != 0)
    && (forall p :: j <= p < end ==> d[p] == 2)
    && (end == |d| || d[end] == 0)
  }

  /** The run that begins at line i: its end, with provisional marks at the end cancelled. */
  method FindRun(d: array<int>, i: nat) returns (j: int, provisional: int, ghost end: int)
    requires i < d.Length && d[i] == 1 && AreMarks(d[..])
    modifies d
    ensures Stretch(old(d[..]), i, j, end) && provisional == Provisionals(old(d[..]), i, j)
    ensures forall p :: 0 <= p < d.Length ==> d[p] == if j <= p < end then 0 else old(d[p])
  {
    ghost var was := d[..];
    j, provisional := i, 0;
    while j < d.Length
      invariant i <= j <= d.Length
      invariant provisional == Provisionals(was, i, j)
      invariant forall p :: i <= p < j ==> d[p] != 0
    {
      if d[j] == 0 {
        break;
      }
      if d[j] == 2 {
        provisional := provisional + 1;
      }
      j := j + 1;
    }
    end := j;
    while j > i && d[j - 1] == 2
      invariant i < j <= end
      invariant provisional == Provisionals(was, i, j)
      invariant forall p :: j <= p < end ==> was[p] == 2
      invariant forall p :: 0 <= p < d.Length ==> d[p] == if j <= p < end then 0 else was[p]
    {
      j, provisional := j - 1, provisional - 1;
      d[j] := 0;
    }
  }

  /** Cancel all provisional marks from i to end - 1. */
  method CancelAll(d: array<int>, i: nat, end: nat)
    requires i <= end <= d.Length
    modifies d
    ensures forall p :: 0 <= p < d.Length ==> d[p] == if i <= p < end && old(d[p]) == 2 then 0 else old(d[p])
  {
    var j := end;
    while j > i
      invariant i <= j <= end
      invariant forall p :: 0 <= p < d.Length ==> d[p] == if j <= p < end && old(d[p]) == 2 then 0 else old(d[p])
    {
      j := j - 1;
      if d[j] == 2 {
        d[j] := 0;
      }
    }
  }

  /** The permanent marks are the same. */
  ghost predicate SameOnes(d: seq<int>, d': seq<int>) {
    |d'| == |d| && forall p :: 0 <= p < |d| ==> (d'[p] == 1 <==> d[p] == 1)
  }

  lemma OnesDecide(d: seq<int>, d': seq<int>, a: int, b: int, p: int)
    requires SameOnes(d, d')
    ensures Opened(d, a, p) <==> Opened(d', a, p)
    ensures Closed(d, b, p) <==> Closed(d', b, p)
  {
    assert forall s :: OpensAt(d, a, s) <==> OpensAt(d', a, s);
    assert forall s :: ClosesAt(d, b, s) <==> ClosesAt(d', b, s);
  }

  /** The stretch of lines before line j has been dealt with; the scan goes on after line i. */
  ghost predicate RunDone(before: seq<int>, after: seq<int>, a: int, j: int, end: int, i: int) {
    && Stretch(before, a, j, end) && RunSettled(before, after, a, j - 1, end) && SameOutside(before, after, a, end)
    && a <= i < j && forall p :: i < p < end ==> after[p] != 2
  }

  lemma AllCancelled(before: seq<int>, after: seq<int>, a: int, j: int, end: int)
    requires Stretch(before, a, j, end) && |after| == |before|
    requires Provisionals(before, a, j) * 4 > j - a
    requires forall p :: 0 <= p < |before| ==> after[p] == if j <= p < end || (a <= p < j && before[p] == 2) then 0 else before[p]
    ensures RunDone(before, after, a, j, end, a)
  {
  }

  lemma SomeCancelled(before: seq<int>, run: seq<int>, short: seq<int>, mid: seq<int>, after: seq<int>, a: int, j: int, end: int)
    requires Stretch(before, a, j, end) && |run| == |before| && Provisionals(before, a, j) * 4 <= j - a
    requires forall p :: 0 <= p < |before| ==> run[p] == if j <= p < end then 0 else before[p]
    requires Scanned(run, short, a, j - a, Threshold(j - a), j - a)
    requires StartCancelled(short, mid, a, j - 1) && EndCancelled(mid, after, a, j - 1)
    ensures RunDone(before, after, a, j, end, j - 1)
  {
    hide InLong, Opened, Closed, Threshold;
    LongTwos(run, a, j - 1, Threshold(j - a));
    assert SameOnes(before, run) && SameOnes(before, short) && SameOnes(before, mid);
    forall p | a <= p < end
      ensures after[p] == if before[p] == 2 && !Stands(before, a, j - 1, p) then 0 else before[p]
    {
      OnesDecide(before, short, a, j - 1, p);
      OnesDecide(before, mid, a, j - 1, p);
      SameLong(before, run, a, j - 1, Threshold(j - a), p);
    }
  }

  lemma LongTwos(d: seq<int>, a: int, b: int, n: int)
    requires 0 <= a && b < |d|
    ensures forall p :: InLong(d, a, b, n, p) ==> a <= p <= b && d[p] == 2
  {
  }

  lemma SameLong(d: seq<int>, d': seq<int>, a: int, b: int, n: int, p: int)
    requires |d'| == |d| && 0 <= a && b < |d| && forall q :: a <= q <= b ==> d'[q] == d[q]
    ensures InLong(d, a, b, n, p) <==> InLong(d', a, b, n, p)
  {
    assert forall l :: a <= l && l + n <= b + 1 ==> (AllTwos(d, l, n) <==> AllTwos(d', l, n));
  }

  /** Deal with the run that begins at the permanent mark of line i0; the scan goes on after line i. */
  method SettleRun(d: array<int>, i0: nat) returns (i: nat, ghost j: int, ghost end: int)
    requires i0 < d.Length && d[i0] == 1 && AreMarks(d[..])
    modifies d
    ensures RunDone(old(d[..]), d[..], i0, j, end, i)
  {
    hide InLong, Opened, Closed, RunSettled;
    ghost var before := d[..];
    var last, provisional;
    last, provisional, end := FindRun(d, i0);
    j := last;
    ghost var run := d[..];
    var length := last - i0;
    i := i0;
    if provisional * 4 > length {
      CancelAll(d, i0, last);
      AllCancelled(before, d[..], i0, last, end);
    } else {
      var minimum := TimesRoot(1, length / 4);
      minimum := minimum + 1;
      CancelLongSubruns(d, i0, length, minimum);
      ghost var short := d[..];
      CancelFromStart(d, i0, length);
      i := i + length - 1;
      ghost var mid := d[..];
      CancelFromEnd(d, i, length);
      SomeCancelled(before, run, short, mid, d[..], i0, last, end);
    }
  }

  // ----- All runs

  /** Marks before line done are final, those after it are untouched, and no run reaches across. */
  ghost predicate Progress(marks: seq<int>, d: seq<int>, i: int, done: int) {
    && |d| == |marks| && 0 <= i <= done <= |d|
    && (forall p :: 0 <= p < done ==> d[p] == Final(marks, p))
    && (forall p :: done <= p < |d| ==> d[p] == marks[p])
    && (forall p :: i <= p < done ==> d[p] != 2)
    && (i < done < |d| ==> marks[done] == 0)
    && forall x :: 0 <= x < done && marks[x] == 1 ==> !Joined(marks, x, done)
  }

  /** The next line has no mark, or a provisional one that is not inside a run. */
  lemma NextLine(marks: seq<int>, d: seq<int>, i: int, done: int)
    requires Progress(marks, d, i, done) && i < |d| && d[i] != 1
    ensures i < done && d[i] == 0 ==> Progress(marks, d, i + 1, done)
    ensures i == done && d[i] == 0 ==> Progress(marks, d, i + 1, i + 1)
    ensures d[i] == 2 ==> Progress(marks, d[i := 0], i + 1, i + 1)
  {
    if i == done {
      forall x | 0 <= x < i + 1 && marks[x] == 1
        ensures !Joined(marks, x, i + 1)
      {
        assert Joined(marks, x, i + 1) ==> Joined(marks, x, i);
      }
      forall a, b | 0 <= a < i < b < |marks| && marks[a] == 1
        ensures !IsRun(marks, a, b)
      {
        assert Joined(marks, a, b) ==> Joined(marks, a, i);
      }
    }
  }

  lemma StretchIsRun(marks: seq<int>, d: seq<int>, i: int, j: int, end: int)
    requires Progress(marks, d, i, i) && Stretch(d, i, j, end)
    ensures IsRun(marks, i, j - 1) && Stretch(marks, i, j, end)
  {
    assert Stretch(marks, i, j, end);
    forall x | j - 1 < x < |marks| && marks[x] == 1
      ensures !Joined(marks, j - 1, x)
    {
      assert end <= x;
    }
  }

  lemma OnlyRun(marks: seq<int>, i: int, j: int, end: int, a: int, b: int, p: int)
    requires IsRun(marks, i, j - 1) && Stretch(marks, i, j, end)
    requires IsRun(marks, a, b) && i <= p < end && a < p < b && marks[p] == 2
    ensures a == i && b == j - 1
  {
    assert b < end;
    RunIsUnique(marks, i, j - 1, a, b, p);
  }

  lemma {:induction false} FinalInRun(marks: seq<int>, d: seq<int>, i: int, j: int, end: int, p: int)
    requires Progress(marks, d, i, i) && Stretch(d, i, j, end) && i <= p < end && marks[p] == 2
    ensures Final(marks, p) == if Stands(d, i, j - 1, p) then 2 else 0
  {
    hide InLong, Opened, Closed, Provisionals, Threshold, IsRun;
    StretchIsRun(marks, d, i, j, end);
    if Stands(d, i, j - 1, p) {
      SameStands(d, marks, i, j - 1, p);
    } else if exists a, b :: IsRun(marks, a, b) && Stands(marks, a, b, p) {
      var a, b :| IsRun(marks, a, b) && Stands(marks, a, b, p);
      OnlyRun(marks, i, j, end, a, b, p);
      SameStands(marks, d, i, j - 1, p);
    }
  }

  /** A run is dealt with once; the rest of a run that was cancelled is met again, and left as it is. */
  lemma NextRun(marks: seq<int>, before: seq<int>, after: seq<int>, i: int, done: int, j: int, end: int, next: int)
    requires Progress(marks, before, i, done) && RunDone(before, after, i, j, end, next)
    ensures i <= next < |before| && (AreMarks(before) ==> AreMarks(after))
    ensures i == done ==> Progress(marks, after, next + 1, end)
    ensures i < done ==> Progress(marks, after, next + 1, done)
  {
    if i == done {
      StretchIsRun(marks, before, i, j, end);
      forall p | i <= p < end
        ensures after[p] == Final(marks, p)
      {
        if marks[p] == 2 {
          FinalInRun(marks, before, i, j, end, p);
        }
      }
    } else {
      assert end <= done;
      assert after == before;
    }
  }

  /** Deal with all runs of a file, from the first line to the last. */
  method SettleProvisional(d: array<int>)
    requires AreMarks(d[..])
    modifies d
    ensures forall p :: 0 <= p < d.Length ==> d[p] == Final(old(d[..]), p)
  {
    hide Final, RunDone, Joined;
    ghost var marks := d[..];
    ghost var done := 0;
    var i := 0;
    while i < d.Length
      invariant 0 <= i <= d.Length && AreMarks(d[..]) && Progress(marks, d[..], i, done)
    {
      ghost var before := d[..];
      if d[i] == 2 {
        NextLine(marks, before, i, done);
        d[i] := 0;
        done := i + 1;
      } else if d[i] != 0 {
        ghost var j, end;
        ghost var start := i;
        i, j, end := SettleRun(d, i);
        NextRun(marks, before, d[..], start, done, j, end, i);
        done := if start == done then end else done;
      } else {
        NextLine(marks, before, i, done);
        done := if i < done then done else i + 1;
      }
      i := i + 1;
    }
  }

  /** The two marks say what they should of the other file. */
  lemma MarksTell(equivs: seq<int>, other: seq<int>, p: int)
    requires 0 <= p < |equivs|
    ensures Marks(equivs, other)[p] == 1 <==> equivs[p] != 0 && equivs[p] !in other
    ensures Marks(equivs, other)[p] == 2 <==> equivs[p] != 0 && Occurrences(other, equivs[p], |other|) > Many(|equivs|)
  {
    assert other[..|other|] == other;
  }

  /** Lines that occur nowhere in the other file are left out, and lines that were not hashed are not. */
  lemma AbsentAreDiscarded(equivs: seq<int>, other: seq<int>, p: int)
    requires 0 <= p < |equivs|
    ensures equivs[p] != 0 && equivs[p] !in other ==> Final(Marks(equivs, other), p) == 1
    ensures equivs[p] == 0 ==> Final(Marks(equivs, other), p) == 0
  {
    hide IsRun, Stands;
    MarksTell(equivs, other, p);
  }

  /**
   A line that is left out although it occurs in the other file occurs there very often, and it stands between
   two that do not, in a run of marked lines and in a short subrun of frequent ones.
   */
  lemma ProvisionalInRun(equivs: seq<int>, other: seq<int>, p: int) returns (a: int, b: int)
    requires 0 <= p < |equivs| && Final(Marks(equivs, other), p) == 2
    ensures Occurrences(other, equivs[p], |other|) > Many(|equivs|)
    ensures 0 <= a < p < b < |equivs| && IsRun(Marks(equivs, other), a, b)
    ensures equivs[a] !in other && equivs[b] !in other
    ensures !InLong(Marks(equivs, other), a, b, Threshold(b + 1 - a), p)
  {
    hide InLong, Opened, Closed, Joined, Occurrences, Many, Threshold, Mark;
    a, b :| IsRun(Marks(equivs, other), a, b) && Stands(Marks(equivs, other), a, b, p);
    MarksTell(equivs, other, p);
    MarksTell(equivs, other, a);
    MarksTell(equivs, other, b);
  }

  /** The lines that are left out. */
  ghost function LeftOut(equivs: seq<int>, other: seq<int>): (f: seq<bool>)
    ensures |f| == |equivs|
    ensures forall p :: 0 <= p < |f| ==> (f[p] <==> Final(Marks(equivs, other), p) != 0)
  {
    seq(|equivs|, p requires 0 <= p < |equivs| => Final(Marks(equivs, other), p) != 0)
  }

  /** No line is left out that could be kept. */
  ghost predicate OnlyAbsent(equivs: seq<int>, other: seq<int>) {
    forall p :: 0 <= p < |equivs| && LeftOut(equivs, other)[p] ==> equivs[p] !in other
  }

  /** No line of the one file occurs more than five times in the other. */
  ghost predicate Rare<T>(equivs: seq<T>, other: seq<T>) {
    forall p :: 0 <= p < |equivs| ==> Occurrences(other, equivs[p], |other|) <= 5
  }

  /** It takes more than five occurrences for a line to be left out that could be kept. */
  lemma RareAreKept(equivs: seq<int>, other: seq<int>)
    requires Rare(equivs, other)
    ensures OnlyAbsent(equivs, other)
  {
    hide IsRun, Stands, Occurrences;
    forall p | 0 <= p < |equivs| && LeftOut(equivs, other)[p]
      ensures equivs[p] !in other
    {
      MarksTell(equivs, other, p);
    }
  }

  /** The codes of the lines that are compared. */
  ghost function LeftIn(equivs: seq<int>, other: seq<int>): (codes: seq<int>)
    ensures |codes| <= |equivs|
  {
    Kept(equivs, LeftOut(equivs, other), 0, |equivs|)
  }

  /** A file that is compared with itself keeps all its lines. */
  lemma NothingDiscarded(equivs: seq<int>, p: int)
    requires 0 <= p < |equivs|
    ensures Final(Marks(equivs, equivs), p) == 0
  {
    hide Stands, Many;
    var marks := Marks(equivs, equivs);
    assert forall q :: 0 <= q < |equivs| ==> marks[q] != 1 by {
      forall q | 0 <= q < |equivs|
        ensures marks[q] != 1
      {
        MarksTell(equivs, equivs, q);
      }
    }
  }

  // ----- Leaving lines out

  /** The compared lines of the first n: those listed in index, with their codes. */
  ghost predicate Lists(index: seq<nat>, codes: seq<int>, equivs: seq<int>, f: seq<bool>, n: int) {
    && 0 <= n <= |equivs| == |f| && |codes| == |index|
    && Increasing(index, n)
    && (forall k :: 0 <= k < |index| ==> codes[k] == equivs[index[k]] && !f[index[k]])
    && forall p :: 0 <= p < n ==> f[p] || p in index
  }

  /** Flag the discarded lines and list the others. */
  method DiscardLines(equivs: seq<int>, discards: array<int>, changed: array<bool>, noDiscards: bool)
    returns (index: seq<nat>, undiscarded: seq<int>)
    requires discards.Length == |equivs| && changed.Length == |equivs| + 2
    requires forall i :: 0 <= i < changed.Length ==> !changed[i]
    modifies changed
    ensures Lists(index, undiscarded, equivs, Lines(changed[..]), |equivs|)
    ensures forall p :: 0 <= p < |equivs| ==> Lines(changed[..])[p] == (!noDiscards && discards[p] != 0)
    ensures !changed[0] && !changed[|equivs| + 1]
    ensures |index| <= |equivs|
    ensures noDiscards ==> undiscarded == equivs && forall k :: 0 <= k < |index| ==> index[k] == k
  {
    hide Lists;
    index, undiscarded := [], [];
    NothingListed(equivs, Lines(changed[..]));
    for i := 0 to |equivs|
      invariant Lists(index, undiscarded, equivs, Lines(changed[..]), i)
      invariant forall p :: 0 <= p < i ==> Lines(changed[..])[p] == (!noDiscards && discards[p] != 0)
      invariant forall p :: i <= p < |equivs| ==> !Lines(changed[..])[p]
      invariant !changed[0] && !changed[|equivs| + 1]
      invariant |index| <= i
      invariant noDiscards ==> undiscarded == equivs[..i] && forall k :: 0 <= k < |index| ==> index[k] == k
    {
      ghost var f := Lines(changed[..]);
      if noDiscards || discards[i] == 0 {
        ListOneMore(index, undiscarded, equivs, f, i);
        index, undiscarded := index + [i], undiscarded + [equivs[i]];
      } else {
        ListNoMore(index, undiscarded, equivs, f, i);
        changed[i + 1] := true;
        assert Lines(changed[..]) == f[i := true];
      }
    }
  }

  lemma NothingListed(equivs: seq<int>, f: seq<bool>)
    requires |f| == |equivs|
    ensures Lists([], [], equivs, f, 0)
  {
  }

  lemma ListOneMore(index: seq<nat>, codes: seq<int>, equivs: seq<int>, f: seq<bool>, i: nat)
    requires Lists(index, codes, equivs, f, i) && i < |equivs| && !f[i]
    ensures Lists(index + [i], codes + [equivs[i]], equivs, f, i + 1)
  {
    assert forall p :: 0 <= p < i && p in index ==> p in index + [i];
  }

  lemma ListNoMore(index: seq<nat>, codes: seq<int>, equivs: seq<int>, f: seq<bool>, i: nat)
    requires Lists(index, codes, equivs, f, i) && i < |equivs|
    ensures Lists(index, codes, equivs, f[i := true], i + 1)
  {
  }

  lemma NotListed(index: seq<nat>, lines: nat, p: nat, k: int)
    requires Increasing(index, lines) && 0 <= k <= |index|
    requires (k > 0 ==> index[k - 1] < p) && (k < |index| ==> p < index[k])
    ensures p !in index
  {
  }

  /** Flags g are those of the discarded lines in f, and of the others in v. */
  ghost predicate Joins(index: seq<nat>, f: seq<bool>, g: seq<bool>, v: seq<bool>) {
    && |g| == |f| && |v| == |index|
    && (forall p :: 0 <= p < |f| && p !in index ==> g[p] == f[p])
    && forall m :: 0 <= m < |v| ==> index[m] < |g| && v[m] == g[index[m]]
  }

  /** Of line n - 1 and the k-th line listed. */
  lemma JoinedAt(index: seq<nat>, codes: seq<int>, equivs: seq<int>, f: seq<bool>, g: seq<bool>, v: seq<bool>, n: int, k: int)
    requires Lists(index, codes, equivs, f, |equivs|) && Joins(index, f, g, v) && 0 < n <= |equivs| && 0 <= k <= |index|
    requires (k > 0 ==> index[k - 1] < n) && (k < |index| ==> n <= index[k])
    ensures |g| == |equivs| && |codes| == |index| == |v|
    ensures if k > 0 && index[k - 1] == n - 1 then codes[k - 1] == equivs[n - 1] && v[k - 1] == g[n - 1] && (k > 1 ==> index[k - 2] < n - 1)
            else g[n - 1]
  {
    if !(k > 0 && index[k - 1] == n - 1) {
      NotListed(index, |equivs|, n - 1, k);
    }
  }

  lemma {:induction false} KeptJoined(index: seq<nat>, codes: seq<int>, equivs: seq<int>, f: seq<bool>,
                                      g: seq<bool>, v: seq<bool>, n: int, k: int)
    requires Lists(index, codes, equivs, f, |equivs|) && Joins(index, f, g, v) && 0 <= n <= |equivs| && 0 <= k <= |index|
    requires (k > 0 ==> index[k - 1] < n) && (k < |index| ==> n <= index[k])
    ensures |g| == |equivs| && |codes| == |index| == |v|
    ensures Kept(equivs, g, 0, n) == Kept(codes, v, 0, k) && Count(g, 0, n) == Count(v, 0, k) + n - k
    decreases n
  {
    hide Lists, Increasing, Joins;
    if n > 0 {
      JoinedAt(index, codes, equivs, f, g, v, n, k);
      KeptJoined(index, codes, equivs, f, g, v, n - 1, if k > 0 && index[k - 1] == n - 1 then k - 1 else k);
    } else {
      JoinsSize(index, codes, equivs, f, g, v);
    }
  }

  lemma JoinsSize(index: seq<nat>, codes: seq<int>, equivs: seq<int>, f: seq<bool>, g: seq<bool>, v: seq<bool>)
    requires Lists(index, codes, equivs, f, |equivs|) && Joins(index, f, g, v)
    ensures |g| == |equivs| && |codes| == |index| == |v|
  {
  }

  /** Leaving discarded lines out of the comparison does not change what is left over in the end. */
  lemma KeptUndiscarded(index: seq<nat>, codes: seq<int>, equivs: seq<int>, f: seq<bool>, g: seq<bool>, v: seq<bool>)
    requires Lists(index, codes, equivs, f, |equivs|) && Joins(index, f, g, v)
    ensures |g| == |equivs| && |codes| == |index| == |v|
    ensures Kept(equivs, g, 0, |g|) == Kept(codes, v, 0, |v|) && Count(g, 0, |g|) == Count(v, 0, |v|) + |g| - |v|
  {
    hide Kept, Count;
    KeptJoined(index, codes, equivs, f, g, v, |equivs|, |index|);
  }

  /** What is listed is what the flags leave over. */
  lemma ListedIsLeft(index: seq<nat>, codes: seq<int>, equivs: seq<int>, f: seq<bool>)
    requires Lists(index, codes, equivs, f, |equivs|)
    ensures |f| == |equivs| && codes == Kept(equivs, f, 0, |f|) && Count(f, 0, |f|) == |f| - |codes|
  {
    hide Kept, Count;
    var v := seq(|index|, _ => false);
    KeptUndiscarded(index, codes, equivs, f, f, v);
    KeptAll(codes, v, 0, |v|);
  }

  /** What flags leave over can be listed. */
  lemma {:induction false} ListOf(equivs: seq<int>, f: seq<bool>, n: nat) returns (index: seq<nat>, codes: seq<int>)
    requires |f| == |equivs| && n <= |equivs|
    ensures Lists(index, codes, equivs, f, n)
  {
    if n == 0 {
      index, codes := [], [];
    } else {
      index, codes := ListOf(equivs, f, n - 1);
      if f[n - 1] {
        ListNoMore(index, codes, equivs, f, n - 1);
        assert f[n - 1 := true] == f;
      } else {
        ListOneMore(index, codes, equivs, f, n - 1);
        index, codes := index + [n - 1], codes + [equivs[n - 1]];
      }
    }
  }

  /** If flags g leave over no line that is left out, what they leave over can be found in what is left in. */
  lemma Restricted(equivs: seq<int>, f: seq<bool>, g: seq<bool>) returns (v: seq<bool>)
    requires |f| == |equivs| == |g| && forall p :: 0 <= p < |f| && f[p] ==> g[p]
    ensures |v| == |Kept(equivs, f, 0, |f|)|
    ensures Kept(equivs, g, 0, |g|) == Kept(Kept(equivs, f, 0, |f|), v, 0, |v|)
    ensures Count(g, 0, |g|) == Count(v, 0, |v|) + |g| - |v|
  {
    hide Kept, Count;
    var index, codes := ListOf(equivs, f, |equivs|);
    ListedIsLeft(index, codes, equivs, f);
    v := seq(|index|, k requires 0 <= k < |index| => g[index[k]]);
    KeptUndiscarded(index, codes, equivs, f, g, v);
  }
}
