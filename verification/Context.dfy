/**
 `print_script` with `find_hunk` and `pr_unidiff_hunk`: group the changes of a script into
 hunks with context around them, and print each hunk in the unified format.

 Line numbers are internal: they count from 0 after a prefix of so many lines that the
 files have in common, and lines of the prefix have negative numbers.
 */
module Context {
  import opened Wrappers
  import opened Text
  import opened Flags
  import opened Script
  import opened Analyze
  import opened CodedLines
  import opened HunkShape
  import opened Diag
  import opened EditGraph

  /** A line of a hunk, with its flag character. */
  datatype Entry = Entry(mark: Mark, line: Line)

  /** A hunk as printed: the numbers of its header, and its lines. */
  datatype Hunk = Hunk(start0: int, count0: int, start1: int, count1: int, body: seq<Entry>)

  /** The lines that the hunk takes from file 0. */
  ghost function Old(body: seq<Entry>): seq<Line> {
    if body == [] then []
    else Old(body[..|body| - 1]) + if body[|body| - 1].mark == Inserted then [] else [body[|body| - 1].line]
  }

  /** The lines that the hunk gives to file 1. */
  ghost function New(body: seq<Entry>): seq<Line> {
    if body == [] then []
    else New(body[..|body| - 1]) + if body[|body| - 1].mark == Deleted then [] else [body[|body| - 1].line]
  }

  /** The number of lines that are deleted or inserted. */
  ghost function Edited(body: seq<Entry>): nat {
    if body == [] then 0
    else Edited(body[..|body| - 1]) + if body[|body| - 1].mark == Same then 0 else 1
  }

  ghost function Marks(body: seq<Entry>): (marks: seq<Mark>)
    ensures |marks| == |body|
  {
    seq(|body|, i requires 0 <= i < |body| => body[i].mark)
  }

  lemma MarksMore(body: seq<Entry>, e: Entry)
    ensures Marks(body + [e]) == Marks(body) + [e.mark]
  {
  }

  ghost function EditedInAll(hunks: seq<Hunk>): nat {
    if hunks == [] then 0 else EditedInAll(hunks[..|hunks| - 1]) + Edited(hunks[|hunks| - 1].body)
  }

  /** The number of lines before a range; a range of no lines is given by the line before it. */
  function LinesBefore(start: int, count: int): int {
    if count == 0 then start else start - 1
  }

  /**
   What the patch utility makes of the hunks: the rest of file 1, once so many lines of either
   file have been passed.  Headers must fit, and so must the lines that a hunk expects.
   */
  ghost function Patched(hunks: seq<Hunk>, file: File, passed0: int, passed1: int): Option<File> {
    if hunks == [] then (if 0 <= passed0 <= |file| then Some(file[passed0..]) else None)
    else
      var h := hunks[0];
      var begin := LinesBefore(h.start0, h.count0);
      if !(0 <= passed0 <= begin && 0 <= h.count0 && begin + h.count0 <= |file|) then None
      else if LinesBefore(h.start1, h.count1) != passed1 + (begin - passed0) then None
      else if Old(h.body) != file[begin..begin + h.count0] || |New(h.body)| != h.count1 then None
      else
        match Patched(hunks[1..], file, begin + h.count0, passed1 + (begin - passed0) + h.count1)
        case None => None
        case Some(rest) => Some(file[passed0..begin] + New(h.body) + rest)
  }

  // ----- Scripts over two files

  /** Two equally long stretches of equal lines. */
  ghost predicate Equal(a: File, b: File, prefix: nat, p0: int, p1: int, q0: int, q1: int) {
    && 0 - prefix <= p0 <= q0 <= |a| - prefix && 0 - prefix <= p1 <= q1 <= |b| - prefix && q0 - p0 == q1 - p1
    && a[p0 + prefix..q0 + prefix] == b[p1 + prefix..q1 + prefix]
  }

  /** The changes are all by which the files differ between two pairs of lines. */
  ghost predicate Tied(s: seq<Change>, a: File, b: File, prefix: nat, p0: int, p1: int, q0: int, q1: int) {
    if s == [] then Equal(a, b, prefix, p0, p1, q0, q1)
    else
      && 0 <= s[0].deleted && 0 <= s[0].inserted && 0 < s[0].deleted + s[0].inserted
      && Equal(a, b, prefix, p0, p1, s[0].line0, s[0].line1)
      && Tied(s[1..], a, b, prefix, s[0].End0(), s[0].End1(), q0, q1)
  }

  /** A script for all of two files. */
  ghost predicate IsDiff(s: seq<Change>, a: File, b: File, prefix: nat) {
    Tied(s, a, b, prefix, 0 - prefix, 0 - prefix, |a| - prefix, |b| - prefix)
  }

  lemma {:induction false} TiedBounds(s: seq<Change>, a: File, b: File, prefix: nat, p0: int, p1: int, q0: int, q1: int)
    requires Tied(s, a, b, prefix, p0, p1, q0, q1)
    ensures 0 - prefix <= p0 <= q0 <= |a| - prefix && 0 - prefix <= p1 <= q1 <= |b| - prefix
    ensures forall i :: 0 <= i < |s| ==> p0 <= s[i].line0 && s[i].End0() <= q0 && p1 <= s[i].line1 && s[i].End1() <= q1
    ensures forall i :: 0 <= i < |s| ==> 0 <= s[i].deleted && 0 <= s[i].inserted && 0 < s[i].deleted + s[i].inserted
    decreases |s|
  {
    if s != [] {
      TiedBounds(s[1..], a, b, prefix, s[0].End0(), s[0].End1(), q0, q1);
      assert forall i :: 0 < i < |s| ==> s[i] == s[1..][i - 1];
    }
  }

  lemma CutEqual(a: File, b: File, prefix: nat, p0: int, p1: int, m0: int, m1: int, q0: int, q1: int)
    requires Equal(a, b, prefix, p0, p1, q0, q1) && p0 <= m0 <= q0 && m1 - p1 == m0 - p0
    ensures Equal(a, b, prefix, p0, p1, m0, m1) && Equal(a, b, prefix, m0, m1, q0, q1)
  {
    CutSlice(a, p0 + prefix, m0 + prefix, q0 + prefix);
    CutSlice(b, p1 + prefix, m1 + prefix, q1 + prefix);
  }

  lemma CutSlice(s: File, a: int, m: int, b: int)
    requires 0 <= a <= m <= b <= |s|
    ensures s[a..m] == s[a..b][..m - a] && s[m..b] == s[a..b][m - a..]
  {
  }

  /** The changes before one, and those from it on. */
  lemma {:induction false} CutTied(s: seq<Change>, n: nat, a: File, b: File, prefix: nat, p0: int, p1: int, q0: int, q1: int)
    requires Tied(s, a, b, prefix, p0, p1, q0, q1) && 0 < n <= |s|
    ensures Tied(s[..n], a, b, prefix, p0, p1, s[n - 1].End0(), s[n - 1].End1())
    ensures Tied(s[n..], a, b, prefix, s[n - 1].End0(), s[n - 1].End1(), q0, q1)
    decreases n
  {
    assert s[..n][0] == s[0] && s[..n][1..] == s[1..][..n - 1] && s[n..] == s[1..][n - 1..];
    if n == 1 {
      TiedBounds(s[1..], a, b, prefix, s[0].End0(), s[0].End1(), q0, q1);
      assert s[..1][1..] == [];
    } else {
      assert s[1..][n - 2] == s[n - 1];
      CutTied(s[1..], n - 1, a, b, prefix, s[0].End0(), s[0].End1(), q0, q1);
    }
  }

  // ----- find_hunk

  /** Changes closer than this go into one hunk. */
  function Threshold(context: nat): nat {
    2 * context + 1
  }

  /** How many changes belong to the first hunk; with no ignorable changes, and no mismatch between the files. */
  method FindHunk(s: seq<Change>, context: nat, ghost a: File, ghost b: File, ghost prefix: nat, ghost p0: int, ghost p1: int)
    returns (n: nat)
    requires s != [] && Tied(s, a, b, prefix, p0, p1, |a| - prefix, |b| - prefix)
    ensures 1 <= n <= |s|
    ensures forall i :: 0 < i < n ==> s[i].line0 - s[i - 1].End0() < Threshold(context)
    ensures n < |s| ==> s[n].line0 - s[n - 1].End0() >= Threshold(context)
  {
    hide Tied;
    n := 0;
    var more := true;
    while more
      invariant 0 <= n <= |s| && (n == 0 ==> more)
      invariant forall i :: 0 < i < n ==> s[i].line0 - s[i - 1].End0() < Threshold(context)
      invariant more ==> n < |s| && (0 < n ==> s[n].line0 - s[n - 1].End0() < Threshold(context))
      invariant !more && n < |s| ==> s[n].line0 - s[n - 1].End0() >= Threshold(context)
      decreases more, |s| - n
    {
      var top0, top1 := s[n].End0(), s[n].End1();
      GapsMatch(s, n, a, b, prefix, p0, p1);
      n := n + 1;
      if n < |s| && s[n].line0 - top0 != s[n].line1 - top1 {
        assert false;
      }
      more := n < |s| && s[n].line0 < top0 + Threshold(context);
    }
  }

  lemma GapsMatch(s: seq<Change>, n: nat, a: File, b: File, prefix: nat, p0: int, p1: int)
    requires Tied(s, a, b, prefix, p0, p1, |a| - prefix, |b| - prefix) && n < |s|
    ensures n + 1 < |s| ==> s[n + 1].line0 - s[n].End0() == s[n + 1].line1 - s[n].End1()
  {
    CutTied(s, n + 1, a, b, prefix, p0, p1, |a| - prefix, |b| - prefix);
    if n + 1 < |s| {
      assert s[n + 1..][0] == s[n + 1];
    }
  }

  // ----- pr_unidiff_hunk

  /** The first line of a hunk, context included. */
  function First0(hunk: seq<Change>, context: nat, prefix: nat): int
    requires hunk != []
  {
    Max(hunk[0].line0 - context, 0 - prefix)
  }

  function First1(hunk: seq<Change>, context: nat, prefix: nat): int
    requires hunk != []
  {
    Max(hunk[0].line1 - context, 0 - prefix)
  }

  /** The line after the last of a hunk, context included; so many lines of the file are valid. */
  function Last0(hunk: seq<Change>, context: nat, valid: int): int
    requires hunk != []
  {
    Min(hunk[|hunk| - 1].End0() + context, valid)
  }

  function Last1(hunk: seq<Change>, context: nat, valid: int): int
    requires hunk != []
  {
    Min(hunk[|hunk| - 1].End1() + context, valid)
  }

  /** With context added on both sides, the hunk is all by which the files differ there. */
  ghost predicate Widened(hunk: seq<Change>, context: nat, a: File, b: File, prefix: nat) {
    && hunk != []
    && Tied(hunk, a, b, prefix, First0(hunk, context, prefix), First1(hunk, context, prefix),
            Last0(hunk, context, |a| - prefix), Last1(hunk, context, |b| - prefix))
  }

  /** The lines of either file between two lines. */
  ghost function Part(file: File, prefix: nat, p: int, q: int): seq<Line>
    requires 0 - prefix <= p <= q <= |file| - prefix
  {
    file[p + prefix..q + prefix]
  }

  lemma PartMore(file: File, prefix: nat, p: int, q: int)
    requires 0 - prefix <= p <= q < |file| - prefix
    ensures Part(file, prefix, p, q + 1) == Part(file, prefix, p, q) + [file[q + prefix]]
  {
  }

  lemma EntryMore(body: seq<Entry>, e: Entry)
    ensures Old(body + [e]) == Old(body) + if e.mark == Inserted then [] else [e.line]
    ensures New(body + [e]) == New(body) + if e.mark == Deleted then [] else [e.line]
    ensures Edited(body + [e]) == Edited(body) + if e.mark == Same then 0 else 1
  {
    assert (body + [e])[..|body + [e]| - 1] == body;
  }

  /** What has been printed so far are these lines of the files. */
  ghost predicate Printed(body: seq<Entry>, a: File, b: File, prefix: nat, p0: int, p1: int, i: int, j: int) {
    && 0 - prefix <= p0 <= i <= |a| - prefix && 0 - prefix <= p1 <= j <= |b| - prefix
    && Old(body) == Part(a, prefix, p0, i) && New(body) == Part(b, prefix, p1, j)
  }

  lemma PrintSame(body: seq<Entry>, a: File, b: File, prefix: nat, p0: int, p1: int, i: int, j: int)
    requires Printed(body, a, b, prefix, p0, p1, i, j) && i < |a| - prefix && j < |b| - prefix && a[i + prefix] == b[j + prefix]
    ensures Printed(body + [Entry(Same, a[i + prefix])], a, b, prefix, p0, p1, i + 1, j + 1)
    ensures Edited(body + [Entry(Same, a[i + prefix])]) == Edited(body)
  {
    hide Old, New, Part, Edited;
    EntryMore(body, Entry(Same, a[i + prefix]));
    PartMore(a, prefix, p0, i);
    PartMore(b, prefix, p1, j);
  }

  lemma PrintDeleted(body: seq<Entry>, a: File, b: File, prefix: nat, p0: int, p1: int, i: int, j: int)
    requires Printed(body, a, b, prefix, p0, p1, i, j) && i < |a| - prefix
    ensures Printed(body + [Entry(Deleted, a[i + prefix])], a, b, prefix, p0, p1, i + 1, j)
    ensures Edited(body + [Entry(Deleted, a[i + prefix])]) == Edited(body) + 1
  {
    hide Old, New, Part, Edited;
    EntryMore(body, Entry(Deleted, a[i + prefix]));
    PartMore(a, prefix, p0, i);
  }

  lemma PrintInserted(body: seq<Entry>, a: File, b: File, prefix: nat, p0: int, p1: int, i: int, j: int)
    requires Printed(body, a, b, prefix, p0, p1, i, j) && j < |b| - prefix
    ensures Printed(body + [Entry(Inserted, b[j + prefix])], a, b, prefix, p0, p1, i, j + 1)
    ensures Edited(body + [Entry(Inserted, b[j + prefix])]) == Edited(body) + 1
  {
    hide Old, New, Part, Edited;
    EntryMore(body, Entry(Inserted, b[j + prefix]));
    PartMore(b, prefix, p1, j);
  }

  lemma PrintedBounds(body: seq<Entry>, a: File, b: File, prefix: nat, p0: int, p1: int, i: int, j: int)
    requires Printed(body, a, b, prefix, p0, p1, i, j)
    ensures 0 <= i + prefix <= |a| && 0 <= j + prefix <= |b|
  {
  }

  /** Output so many lines of file 0 as deleted. */
  method PrintDeletions(count: int, body0: seq<Entry>, a: File, ghost b: File, prefix: nat, ghost p0: int, ghost p1: int, i0: int, ghost j: int)
    returns (body: seq<Entry>, i: int)
    requires Printed(body0, a, b, prefix, p0, p1, i0, j) && 0 <= count && i0 + count <= |a| - prefix
    ensures i == i0 + count && Printed(body, a, b, prefix, p0, p1, i, j)
    ensures Edited(body) == Edited(body0) + count && Marks(body) == Marks(body0) + Copies(Deleted, count)
  {
    hide *;
    PrintedBounds(body0, a, b, prefix, p0, p1, i0, j);
    NoCopies(Deleted);
    body, i := body0, i0;
    var k := count;
    while k > 0
      invariant 0 <= k <= count && i == i0 + count - k && Printed(body, a, b, prefix, p0, p1, i, j)
      invariant Edited(body) == Edited(body0) + count - k && Marks(body) == Marks(body0) + Copies(Deleted, count - k)
    {
      k := k - 1;
      OneMoreCopy(Deleted, count - k - 1);
      MarksMore(body, Entry(Deleted, a[i + prefix]));
      PrintDeleted(body, a, b, prefix, p0, p1, i, j);
      body := body + [Entry(Deleted, a[i + prefix])];
      i := i + 1;
    }
  }

  /** Output so many lines of file 1 as inserted. */
  method PrintInsertions(count: int, body0: seq<Entry>, ghost a: File, b: File, prefix: nat, ghost p0: int, ghost p1: int, ghost i: int, j0: int)
    returns (body: seq<Entry>, j: int)
    requires Printed(body0, a, b, prefix, p0, p1, i, j0) && 0 <= count && j0 + count <= |b| - prefix
    ensures j == j0 + count && Printed(body, a, b, prefix, p0, p1, i, j)
    ensures Edited(body) == Edited(body0) + count && Marks(body) == Marks(body0) + Copies(Inserted, count)
  {
    hide *;
    PrintedBounds(body0, a, b, prefix, p0, p1, i, j0);
    NoCopies(Inserted);
    body, j := body0, j0;
    var k := count;
    while k > 0
      invariant 0 <= k <= count && j == j0 + count - k && Printed(body, a, b, prefix, p0, p1, i, j)
      invariant Edited(body) == Edited(body0) + count - k && Marks(body) == Marks(body0) + Copies(Inserted, count - k)
    {
      k := k - 1;
      OneMoreCopy(Inserted, count - k - 1);
      MarksMore(body, Entry(Inserted, b[j + prefix]));
      PrintInserted(body, a, b, prefix, p0, p1, i, j);
      body := body + [Entry(Inserted, b[j + prefix])];
      j := j + 1;
    }
  }

  /** Output the deleted part of a change, and then the inserted part. */
  method PrintChange(next: Change, body0: seq<Entry>, a: File, b: File, prefix: nat, ghost p0: int, ghost p1: int, i0: int, j0: int)
    returns (body: seq<Entry>, i: int, j: int)
    requires Printed(body0, a, b, prefix, p0, p1, i0, j0) && 0 <= next.deleted && 0 <= next.inserted
    requires i0 + next.deleted <= |a| - prefix && j0 + next.inserted <= |b| - prefix
    ensures i == i0 + next.deleted && j == j0 + next.inserted
    ensures Printed(body, a, b, prefix, p0, p1, i, j)
    ensures Edited(body) == Edited(body0) + next.deleted + next.inserted
    ensures Marks(body) == Marks(body0) + Changed(next)
  {
    hide *;
    body, i := PrintDeletions(next.deleted, body0, a, b, prefix, p0, p1, i0, j0);
    body, j := PrintInsertions(next.inserted, body, a, b, prefix, p0, p1, i, j0);
    ChangedIs(next);
  }

  /** The numbers of a range in a header; one of no lines is given by the line before it. */
  method UnidiffNumberRange(prefix: nat, first: int, last: int) returns (start: int, count: int)
    requires first <= last + 1
    ensures count == last - first + 1 && LinesBefore(start, count) == first + prefix
  {
    var transA, transB := first + prefix + 1, last + prefix + 1;
    if transB <= transA {
      start, count := transB, if transB == transA then 1 else 0;
    } else {
      start, count := transA, transB - transA + 1;
    }
  }

  /** Before the next change, or after the last: both files have the same line. */
  lemma NextIsSame(s: seq<Change>, a: File, b: File, prefix: nat, i: int, j: int, q0: int, q1: int)
    requires Tied(s, a, b, prefix, i, j, q0, q1) && (s == [] || i < s[0].line0) && (i < q0 || j < q1)
    ensures 0 - prefix <= i < |a| - prefix && 0 - prefix <= j < |b| - prefix && a[i + prefix] == b[j + prefix]
    ensures i < q0 && j < q1 && Tied(s, a, b, prefix, i + 1, j + 1, q0, q1)
  {
    TiedBounds(s, a, b, prefix, i, j, q0, q1);
    var m0, m1 := if s == [] then q0 else s[0].line0, if s == [] then q1 else s[0].line1;
    assert Equal(a, b, prefix, i, j, m0, m1);
    CutEqual(a, b, prefix, i, j, i + 1, j + 1, m0, m1);
    assert a[i + prefix] == a[i + prefix..i + 1 + prefix][0] && b[j + prefix] == b[j + prefix..j + 1 + prefix][0];
  }

  lemma NextIsChange(s: seq<Change>, a: File, b: File, prefix: nat, i: int, j: int, q0: int, q1: int)
    requires Tied(s, a, b, prefix, i, j, q0, q1) && s != [] && s[0].line0 <= i
    ensures i == s[0].line0 && j == s[0].line1 && 0 <= s[0].deleted && 0 <= s[0].inserted && 0 < s[0].deleted + s[0].inserted
    ensures s[0].End0() <= q0 <= |a| - prefix && s[0].End1() <= q1 <= |b| - prefix
    ensures Tied(s[1..], a, b, prefix, s[0].End0(), s[0].End1(), q0, q1)
    ensures s[0].End0() == i + s[0].deleted && s[0].End1() == j + s[0].inserted
    ensures Size(s) == s[0].deleted + s[0].inserted + Size(s[1..])
  {
    TiedBounds(s, a, b, prefix, i, j, q0, q1);
  }

  /** The printed hunk accounts for all lines of both ranges. */
  ghost predicate Complete(h: Hunk, a: File, b: File, prefix: nat, p0: int, p1: int, q0: int, q1: int) {
    && Printed(h.body, a, b, prefix, p0, p1, q0, q1)
    && LinesBefore(h.start0, h.count0) == p0 + prefix && h.count0 == q0 - p0
    && LinesBefore(h.start1, h.count1) == p1 + prefix && h.count1 == q1 - p1
  }

  /** Print a hunk. */
  method PrUnidiffHunk(hunk: seq<Change>, context: nat, a: File, b: File, prefix: nat) returns (h: Hunk)
    requires Widened(hunk, context, a, b, prefix)
    ensures Complete(h, a, b, prefix, First0(hunk, context, prefix), First1(hunk, context, prefix),
                     Last0(hunk, context, |a| - prefix), Last1(hunk, context, |b| - prefix))
    ensures Edited(h.body) == Size(hunk)
    ensures Marks(h.body) == Shape(hunk, First0(hunk, context, prefix), Last0(hunk, context, |a| - prefix))
  {
    var first0, first1 := First0(hunk, context, prefix), First1(hunk, context, prefix);
    var last0, last1 := Last0(hunk, context, |a| - prefix) - 1, Last1(hunk, context, |b| - prefix) - 1;
    TiedBounds(hunk, a, b, prefix, first0, first1, last0 + 1, last1 + 1);
    var start0, count0 := UnidiffNumberRange(prefix, first0, last0);
    var start1, count1 := UnidiffNumberRange(prefix, first1, last1);
    var body := UnidiffBody(hunk, a, b, prefix, first0, first1, last0, last1);
    h := Hunk(start0, count0, start1, count1, body);
  }

  method UnidiffBody(hunk: seq<Change>, a: File, b: File, prefix: nat, first0: int, first1: int, last0: int, last1: int)
    returns (body: seq<Entry>)
    requires Tied(hunk, a, b, prefix, first0, first1, last0 + 1, last1 + 1)
    ensures Printed(body, a, b, prefix, first0, first1, last0 + 1, last1 + 1)
    ensures Edited(body) == Size(hunk) && Marks(body) == Shape(hunk, first0, last0 + 1)
  {
    hide *;
    NothingPrinted(hunk, a, b, prefix, first0, first1, last0 + 1, last1 + 1);
    body := [];
    assert hunk[0..] == hunk;
    var next, i, j := 0, first0, first1;
    while i <= last0 || j <= last1
      invariant 0 <= next <= |hunk| && i <= last0 + 1 && j <= last1 + 1
      invariant Tied(hunk[next..], a, b, prefix, i, j, last0 + 1, last1 + 1)
      invariant Printed(body, a, b, prefix, first0, first1, i, j)
      invariant Edited(body) + Size(hunk[next..]) == Size(hunk)
      invariant Marks(body) + Shape(hunk[next..], i, last0 + 1) == Shape(hunk, first0, last0 + 1)
      decreases last0 + 1 - i + last1 + 1 - j
    {
      next, body, i, j := UnidiffStep(hunk, next, body, a, b, prefix, first0, first1, i, j, last0 + 1, last1 + 1);
    }
    AtTheEnd(hunk[next..], a, b, prefix, i, j, last0 + 1, last1 + 1);
    ShapeEnd(i);
  }

  lemma NothingPrinted(s: seq<Change>, a: File, b: File, prefix: nat, p0: int, p1: int, q0: int, q1: int)
    requires Tied(s, a, b, prefix, p0, p1, q0, q1)
    ensures p0 <= q0 && p1 <= q1
    ensures Printed([], a, b, prefix, p0, p1, p0, p1) && Edited([]) == 0 && Marks([]) == []
  {
    TiedBounds(s, a, b, prefix, p0, p1, q0, q1);
  }

  /** The next line of context, or the next change. */
  method UnidiffStep(hunk: seq<Change>, next0: nat, body0: seq<Entry>, a: File, b: File, prefix: nat, ghost first0: int, ghost first1: int,
                     i0: int, j0: int, ghost q0: int, ghost q1: int)
    returns (next: nat, body: seq<Entry>, i: int, j: int)
    requires next0 <= |hunk| && i0 <= q0 && j0 <= q1 && (i0 < q0 || j0 < q1)
    requires Tied(hunk[next0..], a, b, prefix, i0, j0, q0, q1)
    requires Printed(body0, a, b, prefix, first0, first1, i0, j0)
    ensures next <= |hunk| && i <= q0 && j <= q1 && i + j > i0 + j0
    ensures Tied(hunk[next..], a, b, prefix, i, j, q0, q1)
    ensures Printed(body, a, b, prefix, first0, first1, i, j)
    ensures Edited(body) + Size(hunk[next..]) == Edited(body0) + Size(hunk[next0..])
    ensures Marks(body) + Shape(hunk[next..], i, q0) == Marks(body0) + Shape(hunk[next0..], i0, q0)
  {
    hide *;
    ghost var rest := hunk[next0..];
    if next0 == |hunk| || i0 < hunk[next0].line0 {
      NextIsSame(rest, a, b, prefix, i0, j0, q0, q1);
      ShapeSame(rest, i0, q0);
      MarksMore(body0, Entry(Same, a[i0 + prefix]));
      PrintSame(body0, a, b, prefix, first0, first1, i0, j0);
      next, body := next0, body0 + [Entry(Same, a[i0 + prefix])];
      i, j := i0 + 1, j0 + 1;
    } else {
      NextIsChange(rest, a, b, prefix, i0, j0, q0, q1);
      ShapeChange(rest, i0, q0);
      body, i, j := PrintChange(hunk[next0], body0, a, b, prefix, first0, first1, i0, j0);
      assert hunk[next0 + 1..] == rest[1..];
      next := next0 + 1;
    }
  }

  lemma AtTheEnd(s: seq<Change>, a: File, b: File, prefix: nat, i: int, j: int, q0: int, q1: int)
    requires Tied(s, a, b, prefix, i, j, q0, q1) && q0 <= i && q1 <= j
    ensures i == q0 && j == q1 && s == [] && Size(s) == 0
  {
    TiedBounds(s, a, b, prefix, i, j, q0, q1);
  }

  // ----- The whole script

  /** Where the printing is: lines p0 and p1 come after the last change, r0 and r1 after its context. */
  ghost predicate Pending(s: seq<Change>, context: nat, a: File, b: File, prefix: nat, p0: int, p1: int, r0: int, r1: int) {
    && Tied(s, a, b, prefix, p0, p1, |a| - prefix, |b| - prefix)
    && r0 - p0 == r1 - p1 && p0 <= r0 <= (if s == [] then |a| - prefix else s[0].line0)
    && (if p0 == 0 - prefix && p1 == 0 - prefix then r0 == p0 else s == [] || (s[0].line0 - p0 >= Threshold(context) && r0 <= p0 + context))
  }

  lemma PendingTied(s: seq<Change>, context: nat, a: File, b: File, prefix: nat, p0: int, p1: int, r0: int, r1: int)
    requires Pending(s, context, a, b, prefix, p0, p1, r0, r1)
    ensures Tied(s, a, b, prefix, p0, p1, |a| - prefix, |b| - prefix)
  {
  }

  /** Context does not run into the changes before, nor past the beginnings of the files unevenly. */
  lemma ContextBefore(s: seq<Change>, context: nat, a: File, b: File, prefix: nat, p0: int, p1: int, r0: int, r1: int)
    requires s != [] && Pending(s, context, a, b, prefix, p0, p1, r0, r1)
    ensures var f0, f1 := First0(s, context, prefix), First1(s, context, prefix);
            && r0 <= f0 <= s[0].line0 && r1 <= f1 && f0 - r0 == f1 - r1
            && Equal(a, b, prefix, r0, r1, f0, f1) && Equal(a, b, prefix, f0, f1, s[0].line0, s[0].line1)
  {
    var f0, f1 := First0(s, context, prefix), First1(s, context, prefix);
    CutEqual(a, b, prefix, p0, p1, r0, r1, s[0].line0, s[0].line1);
    CutEqual(a, b, prefix, r0, r1, f0, f1, s[0].line0, s[0].line1);
  }

  /** Nor does it run into the changes after, nor past the ends unevenly. */
  lemma ContextAfter(s: seq<Change>, n: nat, context: nat, a: File, b: File, prefix: nat, p0: int, p1: int)
    requires 0 < n <= |s| && Tied(s, a, b, prefix, p0, p1, |a| - prefix, |b| - prefix)
    requires n < |s| ==> s[n].line0 - s[n - 1].End0() >= Threshold(context)
    ensures var hunk, rest := s[..n], s[n..];
            var e0, e1 := Last0(hunk, context, |a| - prefix), Last1(hunk, context, |b| - prefix);
            && Equal(a, b, prefix, s[n - 1].End0(), s[n - 1].End1(), e0, e1)
            && s[n - 1].End0() <= e0 <= s[n - 1].End0() + context && e0 - s[n - 1].End0() == e1 - s[n - 1].End1()
            && e0 <= (if rest == [] then |a| - prefix else rest[0].line0)
            && Tied(rest, a, b, prefix, s[n - 1].End0(), s[n - 1].End1(), |a| - prefix, |b| - prefix)
  {
    var hunk, rest := s[..n], s[n..];
    assert hunk[|hunk| - 1] == s[n - 1];
    CutTied(s, n, a, b, prefix, p0, p1, |a| - prefix, |b| - prefix);
    var t0, t1 := s[n - 1].End0(), s[n - 1].End1();
    var m0, m1 := if rest == [] then |a| - prefix else rest[0].line0, if rest == [] then |b| - prefix else rest[0].line1;
    assert Equal(a, b, prefix, t0, t1, m0, m1) && m0 <= |a| - prefix && m1 <= |b| - prefix;
    hide Tied;
    CutEqual(a, b, prefix, t0, t1, Last0(hunk, context, |a| - prefix), Last1(hunk, context, |b| - prefix), m0, m1);
  }

  /** Moving the ends of a stretch over equal lines. */
  lemma {:induction false} ExtendTied(s: seq<Change>, a: File, b: File, prefix: nat, p0: int, p1: int, t0: int, t1: int, q0: int, q1: int)
    requires Tied(s, a, b, prefix, p0, p1, t0, t1) && Equal(a, b, prefix, t0, t1, q0, q1)
    ensures Tied(s, a, b, prefix, p0, p1, q0, q1)
    decreases |s|
  {
    if s == [] {
      JoinEqual(a, b, prefix, p0, p1, t0, t1, q0, q1);
    } else {
      ExtendTied(s[1..], a, b, prefix, s[0].End0(), s[0].End1(), t0, t1, q0, q1);
    }
  }

  lemma JoinEqual(a: File, b: File, prefix: nat, p0: int, p1: int, t0: int, t1: int, q0: int, q1: int)
    requires Equal(a, b, prefix, p0, p1, t0, t1) && Equal(a, b, prefix, t0, t1, q0, q1)
    ensures Equal(a, b, prefix, p0, p1, q0, q1)
  {
    assert a[p0 + prefix..q0 + prefix] == a[p0 + prefix..t0 + prefix] + a[t0 + prefix..q0 + prefix];
    assert b[p1 + prefix..q1 + prefix] == b[p1 + prefix..t1 + prefix] + b[t1 + prefix..q1 + prefix];
  }

  /** Before the first change, lines may be left off or put on. */
  lemma TiedFrom(s: seq<Change>, a: File, b: File, prefix: nat, p0: int, p1: int, f0: int, f1: int, q0: int, q1: int)
    requires s != [] && Tied(s, a, b, prefix, p0, p1, q0, q1) && Equal(a, b, prefix, f0, f1, s[0].line0, s[0].line1)
    ensures Tied(s, a, b, prefix, f0, f1, q0, q1)
  {
    hide Equal;
  }

  /** A hunk and its context, and what is then pending. */
  lemma HunkIsWidened(s: seq<Change>, n: nat, context: nat, a: File, b: File, prefix: nat, p0: int, p1: int, r0: int, r1: int)
    requires 0 < n <= |s| && Pending(s, context, a, b, prefix, p0, p1, r0, r1)
    requires n < |s| ==> s[n].line0 - s[n - 1].End0() >= Threshold(context)
    ensures Widened(s[..n], context, a, b, prefix)
    ensures var f0, f1 := First0(s[..n], context, prefix), First1(s[..n], context, prefix);
            r0 <= f0 && r1 <= f1 && Equal(a, b, prefix, r0, r1, f0, f1)
    ensures Pending(s[n..], context, a, b, prefix, s[n - 1].End0(), s[n - 1].End1(),
                    Last0(s[..n], context, |a| - prefix), Last1(s[..n], context, |b| - prefix))
  {
    hide Tied, Equal;
    var hunk := s[..n];
    assert hunk[0] == s[0];
    ContextBefore(s, context, a, b, prefix, p0, p1, r0, r1);
    ContextAfter(s, n, context, a, b, prefix, p0, p1);
    CutTied(s, n, a, b, prefix, p0, p1, |a| - prefix, |b| - prefix);
    ChangeMoves(s, n, a, b, prefix, p0, p1);
    var f0, f1 := First0(hunk, context, prefix), First1(hunk, context, prefix);
    TiedFrom(hunk, a, b, prefix, p0, p1, f0, f1, s[n - 1].End0(), s[n - 1].End1());
    ExtendTied(hunk, a, b, prefix, f0, f1, s[n - 1].End0(), s[n - 1].End1(),
               Last0(hunk, context, |a| - prefix), Last1(hunk, context, |b| - prefix));
  }

  /** After a change, at least one file is past its beginning. */
  lemma ChangeMoves(s: seq<Change>, n: nat, a: File, b: File, prefix: nat, p0: int, p1: int)
    requires 0 < n <= |s| && Tied(s, a, b, prefix, p0, p1, |a| - prefix, |b| - prefix)
    ensures s[n - 1].End0() > 0 - prefix || s[n - 1].End1() > 0 - prefix
  {
    TiedBounds(s, a, b, prefix, p0, p1, |a| - prefix, |b| - prefix);
  }

  /** The hunk starts after these lines, changes nothing before, and has the lines of either file in its range. */
  ghost predicate Fits(h: Hunk, a: File, b: File, passed0: int, passed1: int) {
    var begin0, begin1 := LinesBefore(h.start0, h.count0), LinesBefore(h.start1, h.count1);
    && 0 <= passed0 <= begin0 && 0 <= h.count0 && begin0 + h.count0 <= |a|
    && 0 <= passed1 <= begin1 && 0 <= h.count1 && begin1 + h.count1 <= |b|
    && begin1 - passed1 == begin0 - passed0 && a[passed0..begin0] == b[passed1..begin1]
    && Old(h.body) == a[begin0..begin0 + h.count0] && New(h.body) == b[begin1..begin1 + h.count1]
  }

  function End0(h: Hunk): int { LinesBefore(h.start0, h.count0) + h.count0 }
  function End1(h: Hunk): int { LinesBefore(h.start1, h.count1) + h.count1 }

  /** Each hunk fits where the one before it ended. */
  ghost predicate AllFit(hunks: seq<Hunk>, a: File, b: File, passed0: int, passed1: int, end0: int, end1: int) {
    if hunks == [] then passed0 == end0 && passed1 == end1
    else Fits(hunks[0], a, b, passed0, passed1) && AllFit(hunks[1..], a, b, End0(hunks[0]), End1(hunks[0]), end0, end1)
  }

  lemma {:induction false} OneMoreFits(hunks: seq<Hunk>, h: Hunk, a: File, b: File, passed0: int, passed1: int, end0: int, end1: int)
    requires AllFit(hunks, a, b, passed0, passed1, end0, end1) && Fits(h, a, b, end0, end1)
    ensures AllFit(hunks + [h], a, b, passed0, passed1, End0(h), End1(h))
    decreases |hunks|
  {
    hide Fits;
    if hunks == [] {
      assert (hunks + [h])[1..] == [];
    } else {
      assert (hunks + [h])[0] == hunks[0] && (hunks + [h])[1..] == hunks[1..] + [h];
      OneMoreFits(hunks[1..], h, a, b, End0(hunks[0]), End1(hunks[0]), end0, end1);
    }
  }

  /** Patching file 0 with hunks that all fit gives file 1. */
  lemma {:induction false} PatchedIsOther(hunks: seq<Hunk>, a: File, b: File, passed0: int, passed1: int, end0: int, end1: int)
    requires AllFit(hunks, a, b, passed0, passed1, end0, end1) && 0 <= passed0 <= |a| && 0 <= passed1 <= |b|
    requires 0 <= end0 <= |a| && 0 <= end1 <= |b| && a[end0..] == b[end1..]
    ensures Patched(hunks, a, passed0, passed1) == Some(b[passed1..])
    decreases |hunks|
  {
    if hunks != [] {
      var h := hunks[0];
      PatchedIsOther(hunks[1..], a, b, End0(h), End1(h), end0, end1);
      PatchOne(hunks, a, b, passed0, passed1);
    }
  }

  lemma PatchOne(hunks: seq<Hunk>, a: File, b: File, passed0: int, passed1: int)
    requires hunks != [] && Fits(hunks[0], a, b, passed0, passed1)
    requires 0 <= passed1 <= End1(hunks[0]) <= |b| && Patched(hunks[1..], a, End0(hunks[0]), End1(hunks[0])) == Some(b[End1(hunks[0])..])
    ensures Patched(hunks, a, passed0, passed1) == Some(b[passed1..])
  {
    hide Old, New;
    var h := hunks[0];
    var begin1 := LinesBefore(h.start1, h.count1);
    assert b[passed1..] == b[passed1..begin1] + b[begin1..End1(h)] + b[End1(h)..];
  }

  lemma CompleteFits(h: Hunk, a: File, b: File, prefix: nat, r0: int, r1: int, f0: int, f1: int, e0: int, e1: int)
    requires Complete(h, a, b, prefix, f0, f1, e0, e1) && Equal(a, b, prefix, r0, r1, f0, f1) && r0 <= f0
    ensures Fits(h, a, b, r0 + prefix, r1 + prefix) && End0(h) == e0 + prefix && End1(h) == e1 + prefix
  {
    hide Old, New;
  }

  // ----- How much context a hunk has

  /** The number of lines of either file before the first change of a hunk, and up to the end of the last. */
  ghost function Before0(h: Hunk): int { LinesBefore(h.start0, h.count0) + Leading(Marks(h.body)) }
  ghost function Before1(h: Hunk): int { LinesBefore(h.start1, h.count1) + Leading(Marks(h.body)) }
  ghost function After0(h: Hunk): int { End0(h) - Trailing(Marks(h.body)) }
  ghost function After1(h: Hunk): int { End1(h) - Trailing(Marks(h.body)) }

  /** The hunk begins and ends with as many unchanged lines as asked for, or as there are, and has no more than twice as many in a row in between. */
  ghost predicate InContext(h: Hunk, context: nat, lines0: nat, lines1: nat) {
    && Leading(Marks(h.body)) == Min(context, Before0(h)) == Min(context, Before1(h))
    && Trailing(Marks(h.body)) == Min(context, lines0 - After0(h)) == Min(context, lines1 - After1(h))
    && Dense(Marks(h.body), 2 * context)
  }

  /** Between the changes of one hunk and those of the next, more than twice as many lines are unchanged. */
  ghost predicate Apart(h: Hunk, next: Hunk, context: nat) {
    Before0(next) - After0(h) > 2 * context && Before1(next) - After1(h) > 2 * context
  }

  ghost predicate AllInContext(hunks: seq<Hunk>, context: nat, lines0: nat, lines1: nat) {
    && (forall k :: 0 <= k < |hunks| ==> InContext(hunks[k], context, lines0, lines1))
    && forall k, l :: 0 <= k < l < |hunks| && l == k + 1 ==> Apart(hunks[k], hunks[l], context)
  }

  lemma {:induction false} TiedIsProper(s: seq<Change>, a: File, b: File, prefix: nat, p0: int, p1: int, q0: int, q1: int)
    requires Tied(s, a, b, prefix, p0, p1, q0, q1)
    ensures Proper(s, p0, q0)
    ensures s != [] ==> s[0].line0 - p0 == s[0].line1 - p1 && q0 - s[|s| - 1].End0() == q1 - s[|s| - 1].End1()
    decreases |s|
  {
    if s != [] {
      TiedIsProper(s[1..], a, b, prefix, s[0].End0(), s[0].End1(), q0, q1);
    }
  }

  lemma ShapeOfHunk(h: Hunk, hunk: seq<Change>, context: nat, a: File, b: File, prefix: nat)
    requires Widened(hunk, context, a, b, prefix) && HunkShape.Near(hunk, 2 * context)
    requires Marks(h.body) == Shape(hunk, First0(hunk, context, prefix), Last0(hunk, context, |a| - prefix))
    ensures hunk != []
    ensures hunk[0].line0 - First0(hunk, context, prefix) == hunk[0].line1 - First1(hunk, context, prefix)
    ensures Last0(hunk, context, |a| - prefix) - hunk[|hunk| - 1].End0() == Last1(hunk, context, |b| - prefix) - hunk[|hunk| - 1].End1()
    ensures Leading(Marks(h.body)) == hunk[0].line0 - First0(hunk, context, prefix)
    ensures Trailing(Marks(h.body)) == Last0(hunk, context, |a| - prefix) - hunk[|hunk| - 1].End0()
    ensures Dense(Marks(h.body), 2 * context)
  {
    hide Tied, Proper, HunkShape.Near, Shape, Framed, Dense, Leading, Trailing, Marks, First0, First1, Last0, Last1;
    var f0, f1 := First0(hunk, context, prefix), First1(hunk, context, prefix);
    var l0, l1 := Last0(hunk, context, |a| - prefix), Last1(hunk, context, |b| - prefix);
    TiedIsProper(hunk, a, b, prefix, f0, f1, l0, l1);
    ShapeIsFramed(hunk, f0, l0, 2 * context);
    FramedIsDense(Marks(h.body), 2 * context, hunk[0].line0 - f0, l0 - hunk[|hunk| - 1].End0());
  }

  lemma RangeOfHunk(h: Hunk, hunk: seq<Change>, context: nat, a: File, b: File, prefix: nat)
    requires hunk != []
    requires Complete(h, a, b, prefix, First0(hunk, context, prefix), First1(hunk, context, prefix),
                      Last0(hunk, context, |a| - prefix), Last1(hunk, context, |b| - prefix))
    ensures LinesBefore(h.start0, h.count0) == First0(hunk, context, prefix) + prefix && End0(h) == Last0(hunk, context, |a| - prefix) + prefix
    ensures LinesBefore(h.start1, h.count1) == First1(hunk, context, prefix) + prefix && End1(h) == Last1(hunk, context, |b| - prefix) + prefix
  {
    hide Printed;
  }

  lemma ContextOfHunk(h: Hunk, hunk: seq<Change>, context: nat, a: File, b: File, prefix: nat)
    requires hunk != [] && Dense(Marks(h.body), 2 * context)
    requires hunk[0].line0 - First0(hunk, context, prefix) == hunk[0].line1 - First1(hunk, context, prefix)
    requires Last0(hunk, context, |a| - prefix) - hunk[|hunk| - 1].End0() == Last1(hunk, context, |b| - prefix) - hunk[|hunk| - 1].End1()
    requires Leading(Marks(h.body)) == hunk[0].line0 - First0(hunk, context, prefix)
    requires Trailing(Marks(h.body)) == Last0(hunk, context, |a| - prefix) - hunk[|hunk| - 1].End0()
    requires LinesBefore(h.start0, h.count0) == First0(hunk, context, prefix) + prefix && End0(h) == Last0(hunk, context, |a| - prefix) + prefix
    requires LinesBefore(h.start1, h.count1) == First1(hunk, context, prefix) + prefix && End1(h) == Last1(hunk, context, |b| - prefix) + prefix
    ensures InContext(h, context, |a|, |b|)
    ensures Before0(h) == hunk[0].line0 + prefix && Before1(h) == hunk[0].line1 + prefix
    ensures After0(h) == hunk[|hunk| - 1].End0() + prefix && After1(h) == hunk[|hunk| - 1].End1() + prefix
  {
    hide Dense, Leading, Trailing, Marks;
  }

  /** What is printed of a hunk has its context. */
  lemma HunkInContext(h: Hunk, hunk: seq<Change>, context: nat, a: File, b: File, prefix: nat)
    requires Widened(hunk, context, a, b, prefix) && HunkShape.Near(hunk, 2 * context)
    requires Complete(h, a, b, prefix, First0(hunk, context, prefix), First1(hunk, context, prefix),
                      Last0(hunk, context, |a| - prefix), Last1(hunk, context, |b| - prefix))
    requires Marks(h.body) == Shape(hunk, First0(hunk, context, prefix), Last0(hunk, context, |a| - prefix))
    ensures InContext(h, context, |a|, |b|)
    ensures Before0(h) == hunk[0].line0 + prefix && Before1(h) == hunk[0].line1 + prefix
    ensures After0(h) == hunk[|hunk| - 1].End0() + prefix && After1(h) == hunk[|hunk| - 1].End1() + prefix
  {
    hide *;
    ShapeOfHunk(h, hunk, context, a, b, prefix);
    RangeOfHunk(h, hunk, context, a, b, prefix);
    ContextOfHunk(h, hunk, context, a, b, prefix);
  }

  /** The lines between two changes are as many in both files. */
  lemma FarApart(s: seq<Change>, n: nat, context: nat, a: File, b: File, prefix: nat, p0: int, p1: int)
    requires 0 < n < |s| && Tied(s, a, b, prefix, p0, p1, |a| - prefix, |b| - prefix)
    requires s[n].line0 - s[n - 1].End0() >= Threshold(context)
    ensures s[n].line0 - s[n - 1].End0() > 2 * context && s[n].line1 - s[n - 1].End1() > 2 * context
  {
    GapsMatch(s, n - 1, a, b, prefix, p0, p1);
  }

  lemma FirstChanges(s: seq<Change>, n: nat, context: nat)
    requires 0 < n <= |s| && forall i :: 0 < i < n ==> s[i].line0 - s[i - 1].End0() < Threshold(context)
    ensures HunkShape.Near(s[..n], 2 * context) && s[..n][0] == s[0] && s[..n][n - 1] == s[n - 1]
  {
  }

  /** One more hunk, further on. */
  lemma OneMoreInContext(hunks: seq<Hunk>, h: Hunk, context: nat, lines0: nat, lines1: nat)
    requires AllInContext(hunks, context, lines0, lines1) && InContext(h, context, lines0, lines1)
    requires hunks != [] ==> Apart(hunks[|hunks| - 1], h, context)
    ensures AllInContext(hunks + [h], context, lines0, lines1)
  {
    hide InContext, Apart;
  }

  /** The next change is far from the last hunk, if there was one. */
  ghost predicate FarFrom(hunks: seq<Hunk>, s: seq<Change>, context: nat, prefix: nat) {
    hunks != [] && s != [] ==>
      var h := hunks[|hunks| - 1];
      s[0].line0 + prefix - After0(h) > 2 * context && s[0].line1 + prefix - After1(h) > 2 * context
  }

  lemma FarIsApart(hunks: seq<Hunk>, s: seq<Change>, h: Hunk, context: nat, prefix: nat)
    requires FarFrom(hunks, s, context, prefix) && s != [] && Before0(h) == s[0].line0 + prefix && Before1(h) == s[0].line1 + prefix
    ensures hunks != [] ==> Apart(hunks[|hunks| - 1], h, context)
  {
  }

  lemma FarFromNext(hunks: seq<Hunk>, s: seq<Change>, n: nat, h: Hunk, context: nat, prefix: nat)
    requires 0 < n <= |s| && After0(h) == s[n - 1].End0() + prefix && After1(h) == s[n - 1].End1() + prefix
    requires n < |s| ==> s[n].line0 - s[n - 1].End0() > 2 * context && s[n].line1 - s[n - 1].End1() > 2 * context
    ensures FarFrom(hunks + [h], s[n..], context, prefix)
  {
  }

  lemma NoneYet(s: seq<Change>, context: nat, prefix: nat, lines0: nat, lines1: nat)
    ensures FarFrom([], s, context, prefix) && AllInContext([], context, lines0, lines1)
  {
  }

  /** Find the changes of the next hunk, and print it. */
  method NextHunk(s: seq<Change>, context: nat, a: File, b: File, prefix: nat, ghost p0: int, ghost p1: int, ghost r0: int, ghost r1: int)
    returns (n: nat, h: Hunk)
    requires s != [] && Pending(s, context, a, b, prefix, p0, p1, r0, r1)
    ensures 0 < n <= |s| && Fits(h, a, b, r0 + prefix, r1 + prefix)
    ensures Pending(s[n..], context, a, b, prefix, s[n - 1].End0(), s[n - 1].End1(), End0(h) - prefix, End1(h) - prefix)
    ensures Edited(h.body) == Size(s[..n])
    ensures InContext(h, context, |a|, |b|) && Before0(h) == s[0].line0 + prefix && Before1(h) == s[0].line1 + prefix
    ensures After0(h) == s[n - 1].End0() + prefix && After1(h) == s[n - 1].End1() + prefix
    ensures n < |s| ==> s[n].line0 - s[n - 1].End0() > 2 * context && s[n].line1 - s[n - 1].End1() > 2 * context
  {
    hide *;
    PendingTied(s, context, a, b, prefix, p0, p1, r0, r1);
    n := FindHunk(s, context, a, b, prefix, p0, p1);
    HunkIsWidened(s, n, context, a, b, prefix, p0, p1, r0, r1);
    h := PrUnidiffHunk(s[..n], context, a, b, prefix);
    if n < |s| {
      FarApart(s, n, context, a, b, prefix, p0, p1);
    }
    FirstChanges(s, n, context);
    HunkInContext(h, s[..n], context, a, b, prefix);
    CompleteFits(h, a, b, prefix, r0, r1, First0(s[..n], context, prefix), First1(s[..n], context, prefix),
                 Last0(s[..n], context, |a| - prefix), Last1(s[..n], context, |b| - prefix));
  }

  /** Print a script hunk by hunk: patching file 0 with the hunks gives file 1. */
  method PrintContextScript(script: seq<Change>, context: nat, a: File, b: File, prefix: nat) returns (hunks: seq<Hunk>)
    requires IsDiff(script, a, b, prefix)
    ensures Patched(hunks, a, 0, 0) == Some(b) && EditedInAll(hunks) == Size(script)
    ensures AllInContext(hunks, context, |a|, |b|)
  {
    hide *;
    StartPending(script, context, a, b, prefix);
    NoneYet(script, context, prefix, |a|, |b|);
    hunks := [];
    var next := script;
    ghost var p0: int, p1: int, r0: int, r1: int := 0 - prefix, 0 - prefix, 0 - prefix, 0 - prefix;
    while next != []
      invariant Pending(next, context, a, b, prefix, p0, p1, r0, r1)
      invariant AllFit(hunks, a, b, 0, 0, r0 + prefix, r1 + prefix)
      invariant EditedInAll(hunks) + Size(next) == Size(script)
      invariant AllInContext(hunks, context, |a|, |b|) && FarFrom(hunks, next, context, prefix)
      decreases |next|
    {
      var n, h := NextHunk(next, context, a, b, prefix, p0, p1, r0, r1);
      OneMoreFits(hunks, h, a, b, 0, 0, r0 + prefix, r1 + prefix);
      FarIsApart(hunks, next, h, context, prefix);
      OneMoreInContext(hunks, h, context, |a|, |b|);
      FarFromNext(hunks, next, n, h, context, prefix);
      EditedInOneMore(hunks, h);
      SizeSplit(next, n);
      hunks := hunks + [h];
      p0, p1, r0, r1 := next[n - 1].End0(), next[n - 1].End1(), End0(h) - prefix, End1(h) - prefix;
      next := next[n..];
    }
    EndPending(next, context, a, b, prefix, p0, p1, r0, r1);
    PatchedIsOther(hunks, a, b, 0, 0, r0 + prefix, r1 + prefix);
    assert b[0..] == b;
  }

  lemma EditedInOneMore(hunks: seq<Hunk>, h: Hunk)
    ensures EditedInAll(hunks + [h]) == EditedInAll(hunks) + Edited(h.body)
  {
    assert (hunks + [h])[..|hunks|] == hunks;
  }

  lemma StartPending(script: seq<Change>, context: nat, a: File, b: File, prefix: nat)
    requires IsDiff(script, a, b, prefix)
    ensures Pending(script, context, a, b, prefix, 0 - prefix, 0 - prefix, 0 - prefix, 0 - prefix)
    ensures AllFit([], a, b, 0, 0, 0, 0) && EditedInAll([]) == 0
  {
    TiedBounds(script, a, b, prefix, 0 - prefix, 0 - prefix, |a| - prefix, |b| - prefix);
  }

  lemma EndPending(s: seq<Change>, context: nat, a: File, b: File, prefix: nat, p0: int, p1: int, r0: int, r1: int)
    requires Pending(s, context, a, b, prefix, p0, p1, r0, r1) && s == []
    ensures 0 <= r0 + prefix <= |a| && 0 <= r1 + prefix <= |b| && a[r0 + prefix..] == b[r1 + prefix..] && Size(s) == 0
  {
    CutEqual(a, b, prefix, p0, p1, r0, r1, |a| - prefix, |b| - prefix);
    assert a[r0 + prefix..] == a[r0 + prefix..|a|] && b[r1 + prefix..] == b[r1 + prefix..|b|];
  }

  // ----- From two files to a unified diff

  lemma EqualInside(pre: File, a: File, b: File, post: File, a0: int, a1: int, b0: int, b1: int)
    requires 0 <= a0 <= b0 <= |a| && 0 <= a1 <= b1 <= |b| && a[a0..b0] == b[a1..b1]
    ensures Equal(pre + a + post, pre + b + post, |pre|, a0, a1, b0, b1)
  {
    var all0, all1 := pre + a + post, pre + b + post;
    assert all0[a0 + |pre|..b0 + |pre|] == a[a0..b0] && all1[a1 + |pre|..b1 + |pre|] == b[a1..b1];
    assert |a[a0..b0]| == |b[a1..b1]|;
  }

  /** What is left over after a change is the same in both files again. */
  ghost predicate SameFrom(a: File, f0: seq<bool>, a0: int, b: File, f1: seq<bool>, a1: int)
    requires |a| == |f0| && |b| == |f1| && 0 <= a0 <= |a| && 0 <= a1 <= |b|
  {
    Kept(a, f0, a0, |a|) == Kept(b, f1, a1, |b|)
  }

  lemma FirstGap(c: Change, f0: seq<bool>, f1: seq<bool>, a: File, b: File, a0: int, a1: int)
    requires |a| == |f0| && |b| == |f1| && 0 <= a0 <= |a| && 0 <= a1 <= |b|
    requires Gap(f0, f1, a0, a1, c.line0, c.line1) && Covers(c, f0, f1) && SameFrom(a, f0, a0, b, f1, a1)
    ensures a[a0..c.line0] == b[a1..c.line1] && SameFrom(a, f0, c.End0(), b, f1, c.End1())
  {
    hide Kept;
    SamePrefix(c, f0, f1, a, b, a0, a1);
  }

  lemma LastGap(f0: seq<bool>, f1: seq<bool>, a: File, b: File, a0: int, a1: int)
    requires |a| == |f0| && |b| == |f1| && 0 <= a0 <= |a| && 0 <= a1 <= |b|
    requires Gap(f0, f1, a0, a1, |a|, |b|) && SameFrom(a, f0, a0, b, f1, a1)
    ensures a[a0..|a|] == b[a1..|b|]
  {
    KeptAll(a, f0, a0, |a|);
    KeptAll(b, f1, a1, |b|);
  }

  /** The changes that flags call for are all by which the files differ, common ends included. */
  lemma {:induction false} ScriptIsTied(s: seq<Change>, f0: seq<bool>, f1: seq<bool>, pre: File, a: File, b: File, post: File, a0: int, a1: int)
    requires |a| == |f0| && |b| == |f1| && 0 <= a0 <= |a| && 0 <= a1 <= |b|
    requires Between(s, f0, f1, a0, a1, |a|, |b|) && SameFrom(a, f0, a0, b, f1, a1)
    ensures Tied(s, pre + a + post, pre + b + post, |pre|, a0, a1, |a|, |b|)
    decreases |s|
  {
    if s == [] {
      LastGap(f0, f1, a, b, a0, a1);
      EqualInside(pre, a, b, post, a0, a1, |a|, |b|);
    } else {
      var c := s[0];
      assert Covers(c, f0, f1) && Gap(f0, f1, a0, a1, c.line0, c.line1);
      FirstGap(c, f0, f1, a, b, a0, a1);
      hide SameFrom, Equal;
      EqualInside(pre, a, b, post, a0, a1, c.line0, c.line1);
      ScriptIsTied(s[1..], f0, f1, pre, a, b, post, c.End0(), c.End1());
    }
  }

  /** Equal lines before the first change. */
  lemma EqualBefore(s: seq<Change>, a: File, b: File, prefix: nat, t0: int, t1: int, p0: int, p1: int, q0: int, q1: int)
    requires Equal(a, b, prefix, t0, t1, p0, p1) && Tied(s, a, b, prefix, p0, p1, q0, q1)
    ensures Tied(s, a, b, prefix, t0, t1, q0, q1)
  {
    if s == [] {
      JoinEqual(a, b, prefix, t0, t1, p0, p1, q0, q1);
    } else {
      JoinEqual(a, b, prefix, t0, t1, p0, p1, s[0].line0, s[0].line1);
    }
  }

  lemma CommonEnds(pre: File, a: File, b: File, post: File)
    ensures Equal(pre + a + post, pre + b + post, |pre|, 0 - |pre|, 0 - |pre|, 0, 0)
    ensures Equal(pre + a + post, pre + b + post, |pre|, |a|, |b|, |pre + a + post| - |pre|, |pre + b + post| - |pre|)
  {
    var all0, all1 := pre + a + post, pre + b + post;
    assert all0[0..|pre|] == pre && all1[0..|pre|] == pre;
    assert all0[|pre| + |a|..|all0|] == post && all1[|pre| + |b|..|all1|] == post;
  }

  lemma WholeIsTied(s: seq<Change>, f0: seq<bool>, f1: seq<bool>, pre: File, a: File, b: File, post: File)
    requires |a| == |f0| && |b| == |f1| && IsScript(s, f0, f1) && SameLeft(a, f0, b, f1)
    ensures Tied(s, pre + a + post, pre + b + post, |pre|, 0, 0, |a|, |b|)
  {
    assert SameFrom(a, f0, 0, b, f1, 0);
    hide Between, SameFrom, Tied, Kept;
    ScriptIsTied(s, f0, f1, pre, a, b, post, 0, 0);
  }

  lemma ScriptIsDiff(s: seq<Change>, f0: seq<bool>, f1: seq<bool>, pre: File, a: File, b: File, post: File)
    requires |a| == |f0| && |b| == |f1| && IsScript(s, f0, f1) && SameLeft(a, f0, b, f1)
    ensures IsDiff(s, pre + a + post, pre + b + post, |pre|)
  {
    var all0, all1, start := pre + a + post, pre + b + post, 0 - |pre|;
    WholeIsTied(s, f0, f1, pre, a, b, post);
    hide Equal, Tied, IsScript, SameLeft;
    CommonEnds(pre, a, b, post);
    ExtendTied(s, all0, all1, |pre|, 0, 0, |a|, |b|, |all0| - |pre|, |all1| - |pre|);
    EqualBefore(s, all0, all1, |pre|, start, start, 0, 0, |all0| - |pre|, |all1| - |pre|);
  }

  /** Between one change and the next, both files have lines that stay. */
  ghost predicate Separate(s: seq<Change>) {
    forall i, j :: 0 <= i < j < |s| && j == i + 1 ==> s[i].End0() < s[j].line0 && s[i].End1() < s[j].line1
  }

  lemma {:induction false} ScriptIsSeparate(s: seq<Change>, f0: seq<bool>, f1: seq<bool>, a0: int, a1: int)
    requires Between(s, f0, f1, a0, a1, |f0|, |f1|)
    ensures Separate(s)
    decreases |s|
  {
    if |s| > 1 {
      var c, d := s[0], s[1..][0];
      assert d.deleted > 0 ==> f0[d.line0];
      assert d.inserted > 0 ==> f1[d.line1];
      ScriptIsSeparate(s[1..], f0, f1, c.End0(), c.End1());
      assert forall i :: 0 < i < |s| ==> s[i] == s[1..][i - 1];
    }
  }

  /**
   The differ, for files with a common beginning and end, and codes that tell apart the lines in between:
   the script it finds is one for the whole files, and of as few lines as the codes allow if nothing is discarded.
   */
  method FindScript(pre: File, a: File, b: File, post: File, codes0: seq<int>, codes1: seq<int>, equivMax: nat,
                    noDiscards: bool, heuristic: bool, inhibit: bool)
    returns (script: seq<Change>)
    requires Coded(a, codes0, b, codes1)
    requires forall p :: 0 <= p < |codes0| ==> 0 <= codes0[p] < equivMax
    requires forall p :: 0 <= p < |codes1| ==> 0 <= codes1[p] < equivMax
    requires |codes0| + |codes1| + 3 < INT_MAX
    ensures IsDiff(script, pre + a + post, pre + b + post, |pre|) && Separate(script)
    ensures Exhaustive(codes0, codes1, noDiscards, heuristic) ==> Size(script) == Distance(Whole(codes0, codes1))
    ensures codes0 == codes1 ==> script == []
  {
    script := DiffFiles(codes0, codes1, equivMax, noDiscards, heuristic, inhibit, false);
    ghost var f0, f1 :| Matching(codes0, f0, codes1, f1) && IsScript(script, f0, f1);
    LinesLeft(a, codes0, f0, b, codes1, f1);
    ScriptIsSeparate(script, f0, f1, 0, 0);
    hide Between, Kept, SameLeft, Tied, Separate, Exhaustive;
    ScriptIsDiff(script, f0, f1, pre, a, b, post);
  }
}
