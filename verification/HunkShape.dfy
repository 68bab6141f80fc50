/**
 What the lines of a hunk look like by their flag characters: unchanged lines around and between the
 changes, and of each change the deleted lines before the inserted ones.
 */
module HunkShape {
  import opened Script

  datatype Mark = Same | Deleted | Inserted

  /** So many equal marks. */
  ghost function Copies(m: Mark, n: int): (marks: seq<Mark>)
    ensures |marks| == (if n <= 0 then 0 else n) && forall k :: 0 <= k < |marks| ==> marks[k] == m
  {
    if n <= 0 then [] else seq(n, _ => m)
  }

  lemma OneMoreCopy(m: Mark, n: nat)
    ensures Copies(m, n + 1) == Copies(m, n) + [m] == [m] + Copies(m, n)
  {
  }

  lemma NoCopies(m: Mark)
    ensures Copies(m, 0) == []
  {
  }

  /** The marks of a change. */
  ghost function Changed(c: Change): (marks: seq<Mark>)
    ensures forall k :: 0 <= k < |marks| ==> marks[k] != Same
  {
    Copies(Deleted, c.deleted) + Copies(Inserted, c.inserted)
  }

  lemma ChangedIs(c: Change)
    ensures Changed(c) == Copies(Deleted, c.deleted) + Copies(Inserted, c.inserted)
  {
  }

  /** The marks of the changes and of the unchanged lines of file 0 from line i up to line q. */
  ghost function Shape(s: seq<Change>, i: int, q: int): seq<Mark> {
    if s == [] then Copies(Same, q - i)
    else Copies(Same, s[0].line0 - i) + Changed(s[0]) + Shape(s[1..], s[0].End0(), q)
  }

  /** The changes are in order from line i to line q. */
  ghost predicate Proper(s: seq<Change>, i: int, q: int) {
    if s == [] then i <= q
    else i <= s[0].line0 && 0 <= s[0].deleted && 0 <= s[0].inserted && 0 < s[0].deleted + s[0].inserted && Proper(s[1..], s[0].End0(), q)
  }

  /** No more lines than so many stay between a change and the next. */
  ghost predicate Near(s: seq<Change>, width: int) {
    forall i, j :: 0 <= i < j < |s| && j == i + 1 ==> s[j].line0 - s[i].End0() <= width
  }

  /** The marks from x up to y are those of unchanged lines. */
  ghost predicate AllSame(ms: seq<Mark>, x: int, y: int) {
    0 <= x <= y <= |ms| && forall k :: x <= k < y ==> ms[k] == Same
  }

  /** How many unchanged lines come first, and how many come last. */
  function Leading(ms: seq<Mark>): (n: nat)
    ensures AllSame(ms, 0, n) && (n < |ms| ==> ms[n] != Same)
  {
    if ms == [] || ms[0] != Same then 0 else 1 + Leading(ms[1..])
  }

  function Trailing(ms: seq<Mark>): (n: nat)
    ensures n <= |ms| && AllSame(ms, |ms| - n, |ms|) && (n < |ms| ==> ms[|ms| - n - 1] != Same)
  {
    if ms == [] || ms[|ms| - 1] != Same then 0 else 1 + Trailing(ms[..|ms| - 1])
  }

  /** Between the first and the last line that is changed, not more than so many lines in a row are unchanged. */
  ghost predicate Dense(ms: seq<Mark>, width: int) {
    && Leading(ms) + Trailing(ms) < |ms|
    && forall x, y :: Leading(ms) <= x && y <= |ms| - Trailing(ms) && AllSame(ms, x, y) ==> y - x <= width
  }

  ghost predicate Framed(ms: seq<Mark>, width: int, lead: int, trail: int) {
    && 0 <= lead && 0 <= trail && lead + trail < |ms|
    && AllSame(ms, 0, lead) && ms[lead] != Same && AllSame(ms, |ms| - trail, |ms|) && ms[|ms| - trail - 1] != Same
    && forall x, y :: lead <= x && y <= |ms| - trail && AllSame(ms, x, y) ==> y - x <= width
  }

  lemma FramedIsDense(ms: seq<Mark>, width: int, lead: int, trail: int)
    requires Framed(ms, width, lead, trail)
    ensures Leading(ms) == lead && Trailing(ms) == trail && Dense(ms, width)
  {
    OneBeginning(ms, Leading(ms), lead);
    OneEnd(ms, Trailing(ms), trail);
  }

  lemma OneBeginning(ms: seq<Mark>, n: nat, m: nat)
    requires AllSame(ms, 0, n) && (n < |ms| ==> ms[n] != Same)
    requires AllSame(ms, 0, m) && (m < |ms| ==> ms[m] != Same)
    ensures n == m
  {
  }

  lemma OneEnd(ms: seq<Mark>, n: nat, m: nat)
    requires n <= |ms| && AllSame(ms, |ms| - n, |ms|) && (n < |ms| ==> ms[|ms| - n - 1] != Same)
    requires m <= |ms| && AllSame(ms, |ms| - m, |ms|) && (m < |ms| ==> ms[|ms| - m - 1] != Same)
    ensures n == m
  {
  }

  lemma NoneSame(lead: nat, c: seq<Mark>, rest: seq<Mark>)
    requires forall k :: 0 <= k < |c| ==> c[k] != Same
    ensures var ms := Copies(Same, lead) + c + rest; forall k :: lead <= k < lead + |c| ==> ms[k] != Same
  {
    var ms := Copies(Same, lead) + c + rest;
    forall k | lead <= k < lead + |c|
      ensures ms[k] != Same
    {
      assert ms[k] == c[k - lead];
    }
  }

  /** One more change in front. */
  lemma FramedMore(lead: nat, c: seq<Mark>, rest: seq<Mark>, width: int, next: int, trail: int)
    requires c != [] && (forall k :: 0 <= k < |c| ==> c[k] != Same)
    requires 0 <= width && (if next < 0 then trail == |rest| && AllSame(rest, 0, trail) else next <= width && Framed(rest, width, next, trail))
    ensures Framed(Copies(Same, lead) + c + rest, width, lead, trail)
  {
    var ms, n := Copies(Same, lead) + c + rest, lead + |c|;
    assert ms[lead] == c[0] && ms[n - 1] == c[|c| - 1];
    assert forall k :: 0 <= k < |rest| ==> ms[n + k] == rest[k];
    forall k | |ms| - trail <= k < |ms|
      ensures ms[k] == Same
    {
      assert ms[k] == rest[k - n];
    }
    if next >= 0 {
      assert ms[|ms| - trail - 1] == rest[|rest| - trail - 1];
    }
    forall x, y | lead <= x && y <= |ms| - trail && AllSame(ms, x, y)
      ensures y - x <= width
    {
      StretchInside(lead, c, rest, width, next, trail, x, y);
    }
  }

  lemma StretchInside(lead: nat, c: seq<Mark>, rest: seq<Mark>, width: int, next: int, trail: int, x: int, y: int)
    requires c != [] && (forall k :: 0 <= k < |c| ==> c[k] != Same)
    requires 0 <= width && (if next < 0 then trail == |rest| && AllSame(rest, 0, trail) else next <= width && Framed(rest, width, next, trail))
    requires var ms := Copies(Same, lead) + c + rest; lead <= x && y <= |ms| - trail && AllSame(ms, x, y)
    ensures y - x <= width
  {
    var ms, n := Copies(Same, lead) + c + rest, lead + |c|;
    NoneSame(lead, c, rest);
    if x < y {
      assert ms[x] == Same;
      forall k | x - n <= k < y - n
        ensures rest[k] == Same
      {
        assert ms[n + k] == rest[k];
      }
      assert AllSame(rest, x - n, y - n);
    }
  }

  /** The shape of changes that are near each other, with unchanged lines around them. */
  lemma {:induction false} ShapeIsFramed(s: seq<Change>, i: int, q: int, width: nat)
    requires s != [] && Proper(s, i, q) && Near(s, width)
    ensures Framed(Shape(s, i, q), width, s[0].line0 - i, q - s[|s| - 1].End0())
    decreases |s|
  {
    hide Framed, Changed, Shape, Near, Copies;
    var rest := s[1..];
    ChangedSize(s[0]);
    ShapeParts(s, i, q);
    if rest == [] {
      ShapeParts(rest, s[0].End0(), q);
      FramedMore(s[0].line0 - i, Changed(s[0]), Copies(Same, q - s[0].End0()), width, -1, q - s[0].End0());
    } else {
      NearRest(s, width);
      ShapeIsFramed(rest, s[0].End0(), q, width);
      FramedMore(s[0].line0 - i, Changed(s[0]), Shape(rest, s[0].End0(), q), width, rest[0].line0 - s[0].End0(), q - s[|s| - 1].End0());
    }
  }

  lemma ShapeParts(s: seq<Change>, i: int, q: int)
    ensures s == [] ==> Shape(s, i, q) == Copies(Same, q - i) && (i <= q ==> AllSame(Copies(Same, q - i), 0, q - i) && |Copies(Same, q - i)| == q - i)
    ensures s != [] ==> Shape(s, i, q) == Copies(Same, s[0].line0 - i) + Changed(s[0]) + Shape(s[1..], s[0].End0(), q)
  {
  }

  lemma NearRest(s: seq<Change>, width: nat)
    requires |s| > 1 && Near(s, width)
    ensures Near(s[1..], width) && s[1..][0].line0 - s[0].End0() <= width && s[1..][|s| - 2] == s[|s| - 1]
  {
    assert s[1..][0] == s[1];
  }

  lemma ChangedSize(c: Change)
    requires 0 <= c.deleted && 0 <= c.inserted
    ensures |Changed(c)| == c.deleted + c.inserted
  {
  }

  // ----- The shape grows as a hunk is printed

  lemma ShapeSame(s: seq<Change>, i: int, q: int)
    requires i < if s == [] then q else s[0].line0
    ensures Shape(s, i, q) == [Same] + Shape(s, i + 1, q)
  {
    OneMoreCopy(Same, (if s == [] then q else s[0].line0) - i - 1);
  }

  lemma ShapeChange(s: seq<Change>, i: int, q: int)
    requires s != [] && i == s[0].line0
    ensures Shape(s, i, q) == Changed(s[0]) + Shape(s[1..], s[0].End0(), q)
  {
  }

  lemma ShapeEnd(q: int)
    ensures Shape([], q, q) == []
  {
  }
}
