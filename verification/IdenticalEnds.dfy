/**
 `prepare_text_end` and `find_identical_ends`: find the lines with which both files begin
 and the lines with which both end, so that only what is in between has to be compared.
 */
module IdenticalEnds {
  import opened Text

  /** At the beginning of the text, or after a newline. */
  ghost predicate LineStart(text: seq<char>, p: nat)
    requires p <= |text|
  {
    p == 0 || text[p - 1] == '\n'
  }

  /** Nothing, or text that ends in a newline. */
  ghost predicate WholeLines(text: seq<char>) {
    LineStart(text, |text|)
  }

  /** How many characters the texts begin with alike. */
  ghost function Agree(a: seq<char>, b: seq<char>): (m: nat)
    ensures m <= |a| && m <= |b|
  {
    if a == [] || b == [] || a[0] != b[0] then 0 else 1 + Agree(a[1..], b[1..])
  }

  /** How many characters they end in alike. */
  ghost function AgreeBack(a: seq<char>, b: seq<char>): (m: nat)
    ensures m <= |a| && m <= |b|
  {
    if a == [] || b == [] || a[|a| - 1] != b[|b| - 1] then 0 else 1 + AgreeBack(a[..|a| - 1], b[..|b| - 1])
  }

  lemma {:induction false} AgreeIs(a: seq<char>, b: seq<char>, m: nat)
    requires m <= |a| && m <= |b| && a[..m] == b[..m]
    requires m < |a| && m < |b| ==> a[m] != b[m]
    ensures Agree(a, b) == m
  {
    if m > 0 {
      WithoutFirst(a, m);
      WithoutFirst(b, m);
      AgreeIs(a[1..], b[1..], m - 1);
    }
  }

  lemma WithoutFirst(s: seq<char>, m: nat)
    requires 0 < m <= |s|
    ensures s[0] == s[..m][0] && s[1..][..m - 1] == s[..m][1..]
  {
  }

  lemma {:induction false} AgreeBackIs(a: seq<char>, b: seq<char>, m: nat)
    requires m <= |a| && m <= |b| && a[|a| - m..] == b[|b| - m..]
    requires m < |a| && m < |b| ==> a[|a| - m - 1] != b[|b| - m - 1]
    ensures AgreeBack(a, b) == m
    decreases m
  {
    hide AgreeBack;
    AgreeBackStep(a, b);
    if m > 0 {
      WithoutLast(a, |a| - m);
      WithoutLast(b, |b| - m);
      AgreeBackIs(a[..|a| - 1], b[..|b| - 1], m - 1);
    }
  }

  lemma AgreeBackStep(a: seq<char>, b: seq<char>)
    ensures AgreeBack(a, b) == if a == [] || b == [] || a[|a| - 1] != b[|b| - 1] then 0 else 1 + AgreeBack(a[..|a| - 1], b[..|b| - 1])
  {
  }

  lemma WithoutLast(s: seq<char>, k: nat)
    requires k < |s|
    ensures s[|s| - 1] == s[k..][|s| - k - 1] && s[..|s| - 1][k..] == s[k..][..|s| - k - 1]
  {
  }

  /** The number of newlines from a up to b. */
  ghost function Newlines(text: seq<char>, a: nat, b: nat): (n: nat)
    requires a <= b <= |text|
    decreases b - a
  {
    if a == b then 0 else (if text[a] == '\n' then 1 else 0) + Newlines(text, a + 1, b)
  }

  lemma {:induction false} NewlinesJoin(text: seq<char>, a: nat, m: nat, b: nat)
    requires a <= m <= b <= |text|
    ensures Newlines(text, a, b) == Newlines(text, a, m) + Newlines(text, m, b)
    decreases m - a
  {
    if a < m {
      NewlinesJoin(text, a + 1, m, b);
    }
  }

  /** Going back from p0, the so-many-and-first line beginning is p, or the text begins there. */
  ghost predicate LinesBack(text: seq<char>, p: nat, p0: int, lines: nat) {
    && p <= p0 <= |text| && LineStart(text, p)
    && Newlines(text, p, p0) <= lines && (p != 0 ==> Newlines(text, p, p0) == lines)
  }

  /** So many lines further on than p0 is p, or the text ends there. */
  ghost predicate LinesOn(text: seq<char>, p0: nat, p: nat, lines: nat) {
    && p0 <= p <= |text| && (p == p0 || text[p - 1] == '\n')
    && Newlines(text, p0, p) <= lines && (p < |text| ==> Newlines(text, p0, p) == lines)
  }

  /** The common beginning: as far as both agree, though not the one added newline, and back to a line beginning, and over the horizon. */
  ghost predicate IsPrefix(t0: seq<char>, missing0: bool, t1: seq<char>, missing1: bool, robust: bool, horizonLines: nat, p: nat) {
    var m := Agree(t0, t1);
    var uneven := robust && (|t0| - (if missing0 then 1 else 0) < m) != (|t1| - (if missing1 then 1 else 0) < m);
    LinesBack(t0, p, if uneven then m - 1 else m, horizonLines)
  }

  /** The common end: as far as both agree and not into the prefix, on to where both begin a line, and over the horizon. */
  ghost predicate IsSuffix(t0: seq<char>, missing0: bool, t1: seq<char>, missing1: bool, robust: bool, horizonLines: nat, p: nat, s0: nat)
    requires p <= |t0| && p <= |t1|
  {
    if robust && missing0 != missing1 then s0 == |t0|
    else
      var m := AgreeBack(t0[p..], t1[p..]);
      var atStart := LineStart(t0, |t0| - m) && LineStart(t1, |t1| - m);
      LinesOn(t0, |t0| - m, s0, horizonLines + if atStart then 0 else 1)
  }

  /** Make sure that the text ends in a newline, and tell whether one had to be added. */
  method PrepareTextEnd(buffer: array<char>, n: nat) returns (n': nat, missingNewline: bool)
    requires n < buffer.Length
    modifies buffer
    ensures n' == (if missingNewline then n + 1 else n) && n' <= buffer.Length
    ensures buffer[..n] == old(buffer[..n]) && WholeLines(buffer[..n'])
    ensures missingNewline <==> n != 0 && old(buffer[n - 1]) != '\n'
  {
    if n == 0 || buffer[n - 1] == '\n' {
      return n, false;
    } else {
      buffer[n] := '\n';
      return n + 1, true;
    }
  }

  /** A character other than this one. */
  function Complement(c: char): (r: char)
    ensures r != c
  {
    (255 - (c as int) % 256) as char
  }

  /** Where the texts first differ, or one of them ends; a sentinel after the shorter stops the search. */
  method FirstMismatch(buffer0: array<char>, n0: nat, buffer1: array<char>, n1: nat) returns (m: nat)
    requires buffer0 != buffer1 && n0 < buffer0.Length && n1 < buffer1.Length
    modifies buffer0, buffer1
    ensures buffer0[..n0] == old(buffer0[..n0]) && buffer1[..n1] == old(buffer1[..n1])
    ensures m <= n0 && m <= n1 && buffer0[..m] == buffer1[..m]
    ensures m < n0 && m < n1 ==> buffer0[m] != buffer1[m]
  {
    if n0 < n1 {
      buffer0[n0] := Complement(buffer1[n0]);
    } else {
      buffer1[n1] := Complement(buffer0[n1]);
    }
    var min := if n0 < n1 then n0 else n1;
    m := 0;
    while buffer0[m] == buffer1[m]
      invariant m <= min && buffer0[..m] == buffer1[..m]
      decreases min - m
    {
      m := m + 1;
    }
  }

  /** Back to the beginning of a line, and then back over a number of lines more. */
  method SkipBack(buffer: array<char>, ghost n: nat, p0: nat, horizonLines: nat) returns (p: nat)
    requires p0 <= n <= buffer.Length
    ensures LinesBack(buffer[..n], p, p0, horizonLines)
  {
    ghost var text := buffer[..n];
    var i: int := horizonLines;
    p := p0;
    var more := p != 0 && (buffer[p - 1] != '\n' || i != 0);
    while more
      invariant p <= p0 && 0 <= i && Newlines(text, p, p0) == horizonLines - i
      invariant more <==> p != 0 && (text[p - 1] != '\n' || i != 0)
      decreases p, more
    {
      if buffer[p - 1] == '\n' {
        i := i - 1;
      }
      p := p - 1;
      more := p != 0 && (buffer[p - 1] != '\n' || i != 0);
    }
  }

  /** Only if both files lack a newline at their ends is what was added part of the common beginning. */
  ghost predicate AddedAlike(p: nat, n0: nat, missing0: bool, n1: nat, missing1: bool) {
    (missing0 && p == n0) <==> (missing1 && p == n1)
  }

  lemma MismatchAgrees(a: seq<char>, n0: nat, b: seq<char>, n1: nat, m: nat)
    requires m <= n0 <= |a| && m <= n1 <= |b| && a[..m] == b[..m] && (m < n0 && m < n1 ==> a[m] != b[m])
    ensures Agree(a[..n0], b[..n1]) == m
  {
    assert a[..n0][..m] == a[..m] && b[..n1][..m] == b[..m];
    AgreeIs(a[..n0], b[..n1], m);
  }

  /** The lines with which both files begin, less the horizon. */
  method FindPrefix(buffer0: array<char>, n0: nat, missing0: bool, buffer1: array<char>, n1: nat, missing1: bool,
                    robust: bool, horizonLines: nat)
    returns (prefixEnd: nat)
    requires n0 < buffer0.Length && n1 < buffer1.Length && (buffer0 == buffer1 ==> n0 == n1 && missing0 == missing1)
    requires WholeLines(buffer0[..n0]) && WholeLines(buffer1[..n1])
    requires missing0 ==> n0 > 1 && buffer0[n0 - 2] != '\n'
    requires missing1 ==> n1 > 1 && buffer1[n1 - 2] != '\n'
    modifies buffer0, buffer1
    ensures buffer0[..n0] == old(buffer0[..n0]) && buffer1[..n1] == old(buffer1[..n1])
    ensures prefixEnd <= n0 && prefixEnd <= n1 && buffer0[..prefixEnd] == buffer1[..prefixEnd]
    ensures LineStart(buffer0[..n0], prefixEnd) && LineStart(buffer1[..n1], prefixEnd)
    ensures robust ==> AddedAlike(prefixEnd, n0, missing0, n1, missing1)
    ensures IsPrefix(buffer0[..n0], missing0, buffer1[..n1], missing1, robust, horizonLines, prefixEnd)
  {
    hide Newlines, Agree;
    var p;
    if buffer0 == buffer1 {
      p := n1;
      AgreeIs(buffer0[..n0], buffer1[..n1], n1);
    } else {
      p := FirstMismatch(buffer0, n0, buffer1, n1);
      ghost var m := p;
      MismatchAgrees(buffer0[..], n0, buffer1[..], n1, m);
      if robust && (n0 - (if missing0 then 1 else 0) < p) != (n1 - (if missing1 then 1 else 0) < p) {
        p := p - 1;
      }
      assert buffer0[..p] == buffer0[..m][..p] && buffer1[..p] == buffer1[..m][..p];
    }
    prefixEnd := SkipBack(buffer0, n0, p, horizonLines);
    assert buffer0[..prefixEnd] == buffer0[..p][..prefixEnd] && buffer1[..prefixEnd] == buffer1[..p][..prefixEnd];
    if prefixEnd != 0 {
      assert buffer0[..prefixEnd][prefixEnd - 1] == '\n';
    }
  }

  /** Back over what both texts end in, but not into the common beginning of either. */
  method ScanBack(buffer0: array<char>, n0: nat, buffer1: array<char>, n1: nat, prefixEnd: nat) returns (p0: nat, p1: nat)
    requires prefixEnd <= n0 <= buffer0.Length && prefixEnd <= n1 <= buffer1.Length
    ensures prefixEnd <= p0 <= n0 && prefixEnd <= p1 <= n1 && n0 - p0 == n1 - p1
    ensures buffer0[p0..n0] == buffer1[p1..n1]
    ensures n0 - p0 == AgreeBack(buffer0[..n0][prefixEnd..], buffer1[..n1][prefixEnd..])
  {
    hide AgreeBack;
    p0, p1 := n0, n1;
    var beg0 := prefixEnd + if n0 < n1 then 0 else n0 - n1;
    while p0 != beg0
      invariant beg0 <= p0 <= n0 && prefixEnd <= p1 <= n1 && n0 - p0 == n1 - p1
      invariant buffer0[p0..n0] == buffer1[p1..n1]
      decreases p0
    {
      p0, p1 := p0 - 1, p1 - 1;
      if buffer0[p0] != buffer1[p1] {
        p0, p1 := p0 + 1, p1 + 1;
        break;
      }
    }
    ScannedBack(buffer0[..n0], buffer1[..n1], prefixEnd, p0, p1);
  }

  lemma ScannedBack(t0: seq<char>, t1: seq<char>, p: nat, p0: nat, p1: nat)
    requires p <= p0 <= |t0| && p <= p1 <= |t1| && |t0| - p0 == |t1| - p1 && t0[p0..] == t1[p1..]
    requires p0 == p || p1 == p || t0[p0 - 1] != t1[p1 - 1]
    ensures AgreeBack(t0[p..], t1[p..]) == |t0| - p0
  {
    var a, b, m := t0[p..], t1[p..], |t0| - p0;
    assert a[|a| - m..] == t0[p0..] && b[|b| - m..] == t1[p1..];
    AgreeBackIs(a, b, m);
  }

  /** Forward over a number of lines, or to the end. */
  method SkipLines(buffer: array<char>, p0: nat, end: nat, lines: nat) returns (p: nat)
    requires p0 <= end <= buffer.Length && WholeLines(buffer[..end])
    ensures LinesOn(buffer[..end], p0, p, lines)
  {
    hide Newlines;
    ghost var text := buffer[..end];
    p := p0;
    var i := lines;
    NoNewlines(text, p, p);
    while i != 0 && p != end
      invariant p0 <= p <= end && 0 <= i <= lines
      invariant Newlines(text, p0, p) == lines - i && (p == p0 || text[p - 1] == '\n')
    {
      i := i - 1;
      ghost var q := p;
      p := SkipLine(buffer, p, end);
      NewlinesJoin(text, p0, q, p);
    }
  }

  lemma {:induction false} NoNewlines(text: seq<char>, a: nat, b: nat)
    requires a <= b <= |text| && forall i :: a <= i < b ==> text[i] != '\n'
    ensures Newlines(text, a, b) == 0
    decreases b - a
  {
    if a < b {
      NoNewlines(text, a + 1, b);
    }
  }

  method SkipLine(buffer: array<char>, p0: nat, end: nat) returns (p: nat)
    requires p0 < end <= buffer.Length && WholeLines(buffer[..end])
    ensures p0 < p <= end && buffer[p - 1] == '\n' && Newlines(buffer[..end], p0, p) == 1
  {
    hide Newlines;
    ghost var text := buffer[..end];
    p := p0;
    assert text[end - 1] == '\n';
    while buffer[p] != '\n'
      invariant p0 <= p < end && forall i :: p0 <= i < p ==> text[i] != '\n'
      decreases end - p
    {
      p := p + 1;
    }
    OneNewline(text, p0, p);
    p := p + 1;
  }

  lemma OneNewline(text: seq<char>, a: nat, b: nat)
    requires a <= b < |text| && text[b] == '\n' && forall i :: a <= i < b ==> text[i] != '\n'
    ensures Newlines(text, a, b + 1) == 1
  {
    NewlinesJoin(text, a, b, b + 1);
    NoNewlines(text, a, b);
    assert Newlines(text, b + 1, b + 1) == 0;
  }

  /** The lines in which both files end, less the horizon. */
  method FindSuffix(buffer0: array<char>, n0: nat, missing0: bool, buffer1: array<char>, n1: nat, missing1: bool,
                    robust: bool, horizonLines: nat, prefixEnd: nat)
    returns (suffixBegin0: nat, suffixBegin1: nat)
    requires prefixEnd <= n0 <= buffer0.Length && prefixEnd <= n1 <= buffer1.Length
    requires WholeLines(buffer0[..n0]) && WholeLines(buffer1[..n1])
    ensures prefixEnd <= suffixBegin0 <= n0 && prefixEnd <= suffixBegin1 <= n1
    ensures buffer0[suffixBegin0..n0] == buffer1[suffixBegin1..n1]
    ensures LineStart(buffer0[..n0], suffixBegin0) && LineStart(buffer1[..n1], suffixBegin1)
    ensures robust && missing0 != missing1 ==> suffixBegin0 == n0 && suffixBegin1 == n1
    ensures IsSuffix(buffer0[..n0], missing0, buffer1[..n1], missing1, robust, horizonLines, prefixEnd, suffixBegin0)
  {
    hide *;
    suffixBegin0, suffixBegin1 := n0, n1;
    if !robust || missing0 == missing1 {
      var p0, p1 := ScanBack(buffer0, n0, buffer1, n1, prefixEnd);
      var atStart := (p0 == 0 || buffer0[p0 - 1] == '\n') && (p1 == 0 || buffer1[p1 - 1] == '\n');
      suffixBegin0 := SkipLines(buffer0, p0, n0, horizonLines + if atStart then 0 else 1);
      SuffixFound(buffer0[..], n0, missing0, buffer1[..], n1, missing1, robust, horizonLines, prefixEnd, p0, p1, suffixBegin0, atStart);
      suffixBegin1 := p1 + (suffixBegin0 - p0);
    } else {
      NoSuffix(buffer0[..], n0, missing0, buffer1[..], n1, missing1, horizonLines, prefixEnd);
    }
  }

  lemma SuffixFound(a: seq<char>, n0: nat, missing0: bool, b: seq<char>, n1: nat, missing1: bool, robust: bool, horizonLines: nat,
                    p: nat, p0: nat, p1: nat, s0: nat, atStart: bool)
    requires p <= p0 <= n0 <= |a| && p <= p1 <= n1 <= |b| && a[p0..n0] == b[p1..n1]
    requires n0 - p0 == n1 - p1 == AgreeBack(a[..n0][p..], b[..n1][p..])
    requires WholeLines(a[..n0]) && WholeLines(b[..n1]) && (!robust || missing0 == missing1)
    requires atStart <==> (p0 == 0 || a[p0 - 1] == '\n') && (p1 == 0 || b[p1 - 1] == '\n')
    requires LinesOn(a[..n0], p0, s0, horizonLines + if atStart then 0 else 1)
    ensures p0 <= s0 <= n0
    ensures a[s0..n0] == b[p1 + (s0 - p0)..n1]
    ensures LineStart(a[..n0], s0) && LineStart(b[..n1], p1 + (s0 - p0))
    ensures IsSuffix(a[..n0], missing0, b[..n1], missing1, robust, horizonLines, p, s0)
  {
    hide AgreeBack, Newlines, LinesOn, IsSuffix;
    AtStart(a, p0, n0, b, p1, n1);
    SomeLinesOn(a[..n0], p0, s0, horizonLines + if atStart then 0 else 1);
    SuffixIs(a[..n0], missing0, b[..n1], missing1, robust, horizonLines, p, p0, p1, s0);
    SuffixStarts(a, p0, n0, b, p1, n1, s0 - p0, atStart);
  }

  lemma SuffixIs(t0: seq<char>, missing0: bool, t1: seq<char>, missing1: bool, robust: bool, horizonLines: nat,
                 p: nat, p0: nat, p1: nat, s0: nat)
    requires p <= p0 <= |t0| && p <= p1 <= |t1| && |t0| - p0 == |t1| - p1 == AgreeBack(t0[p..], t1[p..])
    requires !robust || missing0 == missing1
    requires LinesOn(t0, p0, s0, horizonLines + if LineStart(t0, p0) && LineStart(t1, p1) then 0 else 1)
    ensures IsSuffix(t0, missing0, t1, missing1, robust, horizonLines, p, s0)
  {
    hide LinesOn, LineStart, AgreeBack;
  }

  lemma NoSuffix(a: seq<char>, n0: nat, missing0: bool, b: seq<char>, n1: nat, missing1: bool, horizonLines: nat, p: nat)
    requires p <= n0 <= |a| && p <= n1 <= |b| && missing0 != missing1 && WholeLines(a[..n0]) && WholeLines(b[..n1])
    ensures a[n0..n0] == b[n1..n1] && LineStart(a[..n0], n0) && LineStart(b[..n1], n1)
    ensures IsSuffix(a[..n0], missing0, b[..n1], missing1, true, horizonLines, p, n0)
  {
  }

  lemma AtStart(a: seq<char>, p0: nat, n0: nat, b: seq<char>, p1: nat, n1: nat)
    requires p0 <= n0 <= |a| && p1 <= n1 <= |b|
    ensures LineStart(a[..n0], p0) <==> p0 == 0 || a[p0 - 1] == '\n'
    ensures LineStart(b[..n1], p1) <==> p1 == 0 || b[p1 - 1] == '\n'
  {
  }

  lemma SomeLinesOn(text: seq<char>, p0: nat, p: nat, lines: nat)
    requires LinesOn(text, p0, p, lines)
    ensures p0 <= p <= |text|
    ensures p == |text| || (lines == 0 && p == p0) || (p0 < p && text[p - 1] == '\n')
  {
    if p == p0 {
      NoNewlines(text, p0, p0);
    }
  }

  /** If going forward stopped after a newline, at the end, or at once where both texts begin a line, both begin one there. */
  lemma SuffixStarts(a: seq<char>, p0: nat, n0: nat, b: seq<char>, p1: nat, n1: nat, k: nat, atStart: bool)
    requires p0 <= n0 <= |a| && p1 <= n1 <= |b| && n0 - p0 == n1 - p1 && a[p0..n0] == b[p1..n1] && k <= n0 - p0
    requires WholeLines(a[..n0]) && WholeLines(b[..n1])
    requires atStart ==> (p0 == 0 || a[p0 - 1] == '\n') && (p1 == 0 || b[p1 - 1] == '\n')
    requires p0 + k == n0 || (k == 0 && atStart) || (0 < k && a[p0 + k - 1] == '\n')
    ensures a[p0 + k..n0] == b[p1 + k..n1]
    ensures LineStart(a[..n0], p0 + k) && LineStart(b[..n1], p1 + k)
  {
    SameRest(a, p0, n0, b, p1, n1, k);
  }

  lemma SameRest(a: seq<char>, p0: nat, n0: nat, b: seq<char>, p1: nat, n1: nat, k: nat)
    requires p0 <= n0 <= |a| && p1 <= n1 <= |b| && a[p0..n0] == b[p1..n1] && k <= n0 - p0
    ensures n0 - p0 == n1 - p1 && a[p0 + k..n0] == b[p1 + k..n1]
    ensures 0 < k ==> a[p0 + k - 1] == b[p1 + k - 1]
  {
    assert |a[p0..n0]| == |b[p1..n1]|;
    assert a[p0 + k..n0] == a[p0..n0][k..] && b[p1 + k..n1] == b[p1..n1][k..];
    assert 0 < k ==> a[p0 + k - 1] == a[p0..n0][k - 1];
  }

  // ----- The last lines of the prefix

  lemma NoMultiple(d: int, m: nat)
    requires 0 < m
    ensures d * m <= 0 || d * m >= m
  {
    if d >= 1 {
      assert d * m == m + (d - 1) * m;
      assert (d - 1) * m >= 0;
    }
  }

  /** Numbers less than m apart fall into different slots. */
  lemma SlotsDiffer(a: nat, b: nat, m: nat)
    requires a < b < a + m
    ensures a % m != b % m
  {
    var d := b / m - a / m;
    assert a == (a / m) * m + a % m && b == (b / m) * m + b % m;
    assert b - a == d * m + (b % m - a % m);
    NoMultiple(d, m);
  }

  /** A power of two of slots, more than the context. */
  method PrefixCount(context: nat) returns (count: nat)
    ensures context < count
  {
    count := 1;
    while count < context + 1
      invariant 1 <= count
      decreases context + 1 - count
    {
      count := count * 2;
    }
  }

  /** The newest lines found so far are in their slots. */
  ghost predicate InSlots(linbuf: seq<nat>, count: nat, lines: File, n: nat)
    requires n <= |lines|
  {
    && 0 < count <= |linbuf|
    && forall k :: 0 <= k < n && n - count <= k ==> linbuf[k % count] == StartOf(lines, 0, k)
  }

  lemma OneMoreSlot(linbuf: seq<nat>, count: nat, lines: File, n: nat, p: nat)
    requires n < |lines| && InSlots(linbuf, count, lines, n) && p == StartOf(lines, 0, n)
    ensures InSlots(linbuf[n % count := p], count, lines, n + 1)
  {
    hide StartOf;
    forall k | 0 <= k < n + 1 && n + 1 - count <= k
      ensures linbuf[n % count := p][k % count] == StartOf(lines, 0, k)
    {
      if k < n {
        SlotsDiffer(k, n, count);
      }
    }
  }

  /** Find the lines of the prefix, and keep the starts of the last of them: in as many slots, round and round. */
  method PrefixLinesInSlots(buffer: array<char>, end: nat, count: nat, linbuf: array<nat>, ghost lines: File) returns (n: nat)
    requires end <= buffer.Length && buffer[..end] == Flat(lines) && AllEnded(lines)
    requires 0 < count <= linbuf.Length
    modifies linbuf
    ensures n == |lines| && InSlots(linbuf[..], count, lines, n)
  {
    hide Flat, StartOf, IsLine, InSlots;
    n := 0;
    var p: nat := 0;
    SlotsStart(linbuf[..], count, lines);
    assert buffer[0..end] == buffer[..end];
    while p != end
      invariant n <= |lines| && p <= end && buffer[p..end] == Flat(lines[n..]) && p == StartOf(lines, 0, n)
      invariant InSlots(linbuf[..], count, lines, n)
      decreases end - p
    {
      NoMoreText(lines, n);
      ghost var before := linbuf[..];
      linbuf[n % count] := p;
      assert linbuf[..] == before[n % count := p];
      OneMoreSlot(before, count, lines, n, p);
      p := NextLine(buffer, p, end, lines, n);
      n := n + 1;
    }
    NoMoreText(lines, n);
  }

  lemma SlotsStart(linbuf: seq<nat>, count: nat, lines: File)
    requires 0 < count <= |linbuf|
    ensures InSlots(linbuf, count, lines, 0) && StartOf(lines, 0, 0) == 0 && lines[0..] == lines
  {
    assert lines[..0] == [];
  }

  /** The line after one. */
  method NextLine(buffer: array<char>, p0: nat, end: nat, ghost lines: File, ghost n: nat) returns (p: nat)
    requires p0 < end <= buffer.Length && n < |lines| && buffer[p0..end] == Flat(lines[n..]) && p0 == StartOf(lines, 0, n)
    requires AllEnded(lines)
    ensures p0 < p <= end && buffer[p..end] == Flat(lines[n + 1..]) && p == StartOf(lines, 0, n + 1)
  {
    var line := lines[n];
    assert IsLine(line) && Ended(line);
    StartOfNext(lines, 0, n);
    hide Flat, StartOf;
    p := p0;
    LineAt(buffer[..], p0, end, line, Flat(lines[n + 1..]));
    while buffer[p] != '\n'
      invariant p0 <= p < p0 + |line|
      decreases p0 + |line| - p
    {
      p := p + 1;
    }
    p := p + 1;
  }

  /** The characters of a line, where it stands in a text. */
  lemma LineAt(a: seq<char>, p0: nat, end: nat, line: Line, rest: seq<char>)
    requires p0 <= end <= |a| && a[p0..end] == line + rest && IsLine(line) && Ended(line)
    ensures p0 + |line| <= end && a[p0 + |line|..end] == rest
    ensures forall k :: p0 <= k < p0 + |line| ==> (a[k] == '\n' <==> k == p0 + |line| - 1)
  {
    assert |a[p0..end]| == end - p0;
    assert a[p0 + |line|..end] == a[p0..end][|line|..] == rest;
    assert forall k :: p0 <= k < p0 + |line| ==> a[k] == a[p0..end][k - p0] == line[k - p0];
  }

  /** All lines of the prefix, in a table that grows. */
  method PrefixLinesAll(buffer: array<char>, end: nat, alloc: nat, ghost lines: File) returns (n: nat, linbuf: array<nat>)
    requires end <= buffer.Length && buffer[..end] == Flat(lines) && AllEnded(lines) && 0 < alloc
    ensures fresh(linbuf) && n == |lines| <= linbuf.Length
    ensures forall k :: 0 <= k < n ==> linbuf[k] == StartOf(lines, 0, k)
  {
    hide Flat, StartOf, IsLine;
    n := 0;
    linbuf := new nat[alloc](_ => 0);
    var p: nat := 0;
    SlotsStart(linbuf[..], 1, lines);
    assert buffer[0..end] == buffer[..end];
    while p != end
      invariant n <= |lines| && n <= linbuf.Length && 0 < linbuf.Length && fresh(linbuf)
      invariant p <= end && buffer[p..end] == Flat(lines[n..]) && p == StartOf(lines, 0, n)
      invariant forall k :: 0 <= k < n ==> linbuf[k] == StartOf(lines, 0, k)
      decreases end - p
    {
      NoMoreText(lines, n);
      if n == linbuf.Length {
        linbuf := Doubled(linbuf);
      }
      linbuf[n] := p;
      p := NextLine(buffer, p, end, lines, n);
      n := n + 1;
    }
    NoMoreText(lines, n);
  }

  method Doubled(a: array<nat>) returns (b: array<nat>)
    ensures fresh(b) && b.Length == 2 * a.Length && forall k :: 0 <= k < a.Length ==> b[k] == a[k]
  {
    b := new nat[2 * a.Length](_ => 0);
    for k := 0 to a.Length
      invariant forall j :: 0 <= j < k ==> b[j] == a[j]
    {
      b[k] := a[k];
    }
  }

  /** The last lines of the prefix, in order: all of them, or just as many as the context. */
  method PrefixLines(buffer: array<char>, end: nat, context: nat, whole: bool, alloc: nat, ghost lines: File)
    returns (n: nat, buffered: nat, linbuf: array<nat>)
    requires end <= buffer.Length && buffer[..end] == Flat(lines) && AllEnded(lines) && 0 < alloc
    ensures n == |lines| && buffered == if !whole && context < n then context else n
    ensures buffered <= linbuf.Length && forall i :: 0 <= i < buffered ==> linbuf[i] == StartOf(lines, 0, n - buffered + i)
  {
    hide Flat, StartOf, IsLine, InSlots;
    if whole {
      n, linbuf := PrefixLinesAll(buffer, end, alloc, lines);
      buffered := n;
    } else {
      var count := PrefixCount(context);
      linbuf := new nat[count + alloc](_ => 0);
      n := PrefixLinesInSlots(buffer, end, count, linbuf, lines);
      buffered := if context < n then context else n;
      if buffered != n {
        Rotate(linbuf, count, context, n, lines);
      } else {
        AllInOrder(linbuf[..], count, n, lines);
      }
    }
  }

  lemma AllInOrder(linbuf: seq<nat>, count: nat, n: nat, lines: File)
    requires n == |lines| && InSlots(linbuf, count, lines, n) && n < count
    ensures forall i :: 0 <= i < n ==> linbuf[i] == StartOf(lines, 0, i)
  {
    hide StartOf;
    forall i | 0 <= i < n
      ensures linbuf[i] == StartOf(lines, 0, i)
    {
      assert i % count == i;
    }
  }

  /** Move the lines to their places in the buffer, by way of another. */
  method Rotate(linbuf: array<nat>, count: nat, context: nat, n: nat, ghost lines: File)
    requires context < count && context < n == |lines| && InSlots(linbuf[..], count, lines, n)
    modifies linbuf
    ensures forall i :: 0 <= i < context ==> linbuf[i] == StartOf(lines, 0, n - context + i)
  {
    hide StartOf;
    var linbuf1 := new nat[context];
    for i := 0 to context
      invariant linbuf[..] == old(linbuf[..])
      invariant forall j :: 0 <= j < i ==> linbuf1[j] == StartOf(lines, 0, n - context + j)
    {
      ghost var k := n - context + i;
      assert linbuf[..][k % count] == StartOf(lines, 0, k);
      linbuf1[i] := linbuf[(n - context + i) % count];
    }
    for i := 0 to context
      invariant forall j :: 0 <= j < context ==> linbuf1[j] == StartOf(lines, 0, n - context + j)
      invariant forall j :: 0 <= j < i ==> linbuf[j] == StartOf(lines, 0, n - context + j)
    {
      linbuf[i] := linbuf1[i];
    }
  }
}
