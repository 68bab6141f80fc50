/**
 `diff_2_files` for text in a robust output style: from two texts to a unified diff.
 */
module DiffText {
  import opened Wrappers
  import opened Text
  import opened IdenticalEnds
  import opened Equivs
  import opened CodedLines
  import opened FewestLines
  import opened Context
  import opened Script
  import opened Diag
  import opened Analyze

  // ----- Cutting texts at line beginnings

  /** Whole lines of a text are its beginning as lines. */
  lemma {:induction false} LinesJoin(x: seq<char>, y: seq<char>)
    requires WholeLines(x)
    ensures Lines(x + y) == Lines(x) + Lines(y)
    decreases |x|
  {
    if x == [] {
      assert x + y == y;
    } else {
      assert (x + y)[0] == x[0] && (x + y)[1..] == x[1..] + y;
      assert WholeLines(x[1..]);
      assert x[0] != '\n' ==> x[1..] != [];
      hide WholeLines;
      LinesJoin(x[1..], y);
      JoinStep(x, y);
    }
  }

  lemma JoinStep(x: seq<char>, y: seq<char>)
    requires x != [] && (x[0] != '\n' ==> x[1..] != []) && (x + y)[0] == x[0] && (x + y)[1..] == x[1..] + y
    requires Lines(x[1..] + y) == Lines(x[1..]) + Lines(y)
    ensures Lines(x + y) == Lines(x) + Lines(y)
  {
    var c, rest, more := x[0], Lines(x[1..]), Lines(y);
    if c == '\n' {
      Associate(["\n"], rest, more);
    } else {
      assert rest != [];
      assert Lines(x) == Longer(c, rest) && Lines(x + y) == Longer(c, rest + more);
      hide Lines;
      LongerJoin(c, rest, more);
    }
  }

  lemma Associate(a: File, b: File, c: File)
    ensures a + (b + c) == (a + b) + c
  {
  }

  lemma LongerJoin(c: char, a: File, b: File)
    requires a != []
    ensures Longer(c, a + b) == Longer(c, a) + b
  {
    assert (a + b)[0] == a[0] && (a + b)[1..] == a[1..] + b;
    Associate([[c] + a[0]], a[1..], b);
  }

  /** Cutting whole lines of a text, and putting them together again. */
  lemma {:induction false} WholeLinesFlat(x: seq<char>)
    requires WholeLines(x)
    ensures AllEnded(Lines(x)) && Flat(Lines(x)) == x
    decreases |x|
  {
    if x != [] {
      assert WholeLines(x[1..]);
      WholeLinesFlat(x[1..]);
      if x[0] == '\n' {
        LineFirst(x);
      } else {
        assert x[1..] != [];
        LineLonger(x);
      }
    }
  }

  lemma LineFirst(x: seq<char>)
    requires x != [] && x[0] == '\n' && AllEnded(Lines(x[1..])) && Flat(Lines(x[1..])) == x[1..]
    ensures AllEnded(Lines(x)) && Flat(Lines(x)) == x
  {
    assert Lines(x) == ["\n"] + Lines(x[1..]);
    assert Lines(x)[1..] == Lines(x[1..]);
  }

  /** One more character at the beginning of the first line. */
  ghost function Longer(c: char, lines: File): File
    requires lines != []
  {
    [[c] + lines[0]] + lines[1..]
  }

  lemma LongerEnded(c: char, lines: File)
    requires lines != [] && AllEnded(lines) && c != '\n'
    ensures AllEnded(Longer(c, lines)) && Flat(Longer(c, lines)) == [c] + Flat(lines)
  {
    var first, more := [c] + lines[0], Longer(c, lines);
    assert IsLine(lines[0]) && Ended(lines[0]);
    assert IsLine(first) && Ended(first);
    hide IsLine, Ended;
    assert more[0] == first && more[1..] == lines[1..];
    assert forall i :: 1 <= i < |more| ==> more[i] == lines[i];
  }

  lemma LongerReal(c: char, lines: File)
    requires lines != [] && lines[0] != []
    ensures RealLines(Longer(c, lines), true) == Longer(c, RealLines(lines, true))
  {
    var more, n := Longer(c, lines), |lines| - 1;
    if n == 0 {
      assert Unended([c] + lines[0]) == [c] + Unended(lines[0]);
    } else {
      assert more[n] == lines[n] && more[..n] == [[c] + lines[0]] + lines[1..n];
      assert lines[..n][1..] == lines[1..n];
    }
  }

  lemma LineLonger(x: seq<char>)
    requires |x| > 1 && x[0] != '\n' && AllEnded(Lines(x[1..])) && Flat(Lines(x[1..])) == x[1..]
    ensures AllEnded(Lines(x)) && Flat(Lines(x)) == x && Lines(x[1..]) != []
  {
    var rest := Lines(x[1..]);
    assert rest != [];
    assert Lines(x) == Longer(x[0], rest);
    hide Lines, AllEnded, Longer;
    LongerEnded(x[0], rest);
  }

  /** The last line as it was before a newline was added. */
  lemma {:induction false} LinesUnended(x: seq<char>)
    requires x != [] && x[|x| - 1] != '\n'
    ensures Lines(x) == RealLines(Lines(x + "\n"), true)
    decreases |x|
  {
    var y := x + "\n";
    if |x| == 1 {
      assert y[1..] == "\n" && Lines("\n") == ["\n"] + Lines([]);
      assert x[1..] == [];
    } else {
      assert y[1..] == x[1..] + "\n";
      LinesUnended(x[1..]);
      SomeLine(y[1..]);
      UnendedStep(x, Lines(x[1..]), Lines(y[1..]));
    }
  }

  lemma UnendedStep(x: seq<char>, rest: File, more: File)
    requires |x| > 1 && rest == Lines(x[1..]) == RealLines(more, true) && more == Lines(x[1..] + "\n") && more != [] && more[0] != []
    ensures Lines(x) == RealLines(Lines(x + "\n"), true)
  {
    var y := x + "\n";
    assert y[0] == x[0] && y[1..] == x[1..] + "\n";
    if x[0] == '\n' {
      assert Lines(y) == ["\n"] + more && Lines(x) == ["\n"] + rest;
      RealJoin(["\n"], more, true);
    } else {
      assert Lines(y) == Longer(x[0], more) && Lines(x) == Longer(x[0], rest);
      LongerReal(x[0], more);
    }
  }

  lemma {:induction false} SomeLine(x: seq<char>)
    requires x != []
    ensures Lines(x) != [] && Lines(x)[0] != []
  {
  }

  lemma RealJoin(x: File, y: File, added: bool)
    ensures RealLines(x + y, added) == if y == [] then RealLines(x, added) else x + RealLines(y, added)
  {
    if y == [] {
      assert x + y == x;
    } else {
      assert (x + y)[|x + y| - 1] == y[|y| - 1];
      assert (x + y)[..|x + y| - 1] == x + y[..|y| - 1];
    }
  }

  /** A text cut at two line beginnings. */
  lemma Parts(t: seq<char>, p: nat, s: nat)
    requires p <= s <= |t| && WholeLines(t) && LineStart(t, p) && LineStart(t, s)
    ensures Lines(t) == Lines(t[..p]) + Lines(t[p..s]) + Lines(t[s..])
    ensures AllEnded(Lines(t[p..s])) && Flat(Lines(t[p..s])) == t[p..s]
    ensures Lines(t[..p]) == [] <==> p == 0
    ensures Lines(t[p..s]) == [] <==> p == s
    ensures Lines(t[s..]) == [] <==> s == |t|
  {
    PartsAreWhole(t, p, s);
    hide Lines, Flat, AllEnded, LineStart, WholeLines;
    LinesJoin(t[..p], t[p..]);
    LinesJoin(t[p..s], t[s..]);
    WholeLinesFlat(t[p..s]);
    NoLines(t[..p]);
    NoLines(t[p..s]);
    NoLines(t[s..]);
  }

  lemma PartsAreWhole(t: seq<char>, p: nat, s: nat)
    requires p <= s <= |t| && LineStart(t, p) && LineStart(t, s)
    ensures t == t[..p] + t[p..] && t[p..] == t[p..s] + t[s..]
    ensures WholeLines(t[..p]) && WholeLines(t[p..s])
  {
  }

  lemma NoLines(x: seq<char>)
    ensures Lines(x) == [] <==> x == []
  {
    if x != [] {
      SomeLine(x);
    }
  }

  /** The text of a file, and the text with a newline added if need be. */
  ghost predicate Prepared(text: seq<char>, t: seq<char>, added: bool) {
    if added then text != [] && text[|text| - 1] != '\n' && t == text + "\n" else t == text && WholeLines(t)
  }

  lemma PreparedLines(text: seq<char>, t: seq<char>, added: bool)
    requires Prepared(text, t, added)
    ensures Lines(text) == RealLines(Lines(t), added) && WholeLines(t)
  {
    if added {
      LinesUnended(text);
    }
  }

  /** The beginning of a file, which holds its last line only if nothing comes after. */
  function Head(t: seq<char>, p: nat, added: bool): File
    requires p <= |t|
  {
    RealLines(Lines(t[..p]), added && p == |t|)
  }

  function Middle(t: seq<char>, p: nat, s: nat, added: bool): File
    requires p <= s <= |t|
  {
    RealLines(Lines(t[p..s]), added && s == |t|)
  }

  function Tail(t: seq<char>, s: nat, added: bool): File
    requires s <= |t|
  {
    RealLines(Lines(t[s..]), added)
  }

  lemma RealParts(text: seq<char>, t: seq<char>, added: bool, p: nat, s: nat)
    requires Prepared(text, t, added) && p <= s <= |t| && LineStart(t, p) && LineStart(t, s)
    ensures Lines(text) == Head(t, p, added) + Middle(t, p, s, added) + Tail(t, s, added)
  {
    PreparedLines(text, t, added);
    hide Lines, Prepared, RealLines, LineStart;
    Parts(t, p, s);
    var x, y, z := Lines(t[..p]), Lines(t[p..s]), Lines(t[s..]);
    RealJoin(x + y, z, added);
    RealJoin(x, y, added);
    NoneReal(added);
    assert x + y + z == Lines(t);
    if z == [] && y == [] {
      assert RealLines(x, added) == Head(t, p, added);
    } else if z == [] {
      NotReal(x);
    } else {
      NotReal(x);
      NotReal(y);
    }
  }

  lemma NoneReal(added: bool)
    ensures RealLines([], added) == []
  {
  }

  lemma NotReal(x: File)
    ensures RealLines(x, false) == x
  {
  }

  // ----- From two texts to hunks

  /** A text in a buffer with room for a newline and a sentinel. */
  method Slurp(text: seq<char>) returns (buffer: array<char>)
    ensures fresh(buffer) && buffer.Length == |text| + 2 && buffer[..|text|] == text
  {
    buffer := new char[|text| + 2](i => if 0 <= i < |text| then text[i] else '\0');
  }

  /** Read a text, and make sure that it ends in a newline. */
  method Prepare(text: seq<char>) returns (buffer: array<char>, n: nat, missing: bool)
    ensures fresh(buffer) && n < buffer.Length && Prepared(text, buffer[..n], missing)
    ensures missing ==> n > 1 && buffer[n - 2] != '\n'
    ensures n <= |text| + 1
  {
    buffer := Slurp(text);
    assert text != [] ==> buffer[|text| - 1] == text[|text| - 1];
    n, missing := PrepareTextEnd(buffer, |text|);
    assert buffer[..|text|] == text;
    if missing {
      assert buffer[..n] == text + [buffer[n - 1]];
      assert buffer[|text| - 1] == text[|text| - 1];
    }
  }

  /** What the files have in common at both ends, in bytes. */
  ghost predicate Ends(t0: seq<char>, missing0: bool, t1: seq<char>, missing1: bool, p: nat, s0: nat, s1: nat) {
    && p <= s0 <= |t0| && p <= s1 <= |t1|
    && t0[..p] == t1[..p] && t0[s0..] == t1[s1..]
    && LineStart(t0, p) && LineStart(t1, p) && LineStart(t0, s0) && LineStart(t1, s1)
    && AddedAlike(p, |t0|, missing0, |t1|, missing1)
    && (missing0 != missing1 ==> s0 == |t0| && s1 == |t1|)
  }

  /** Common bytes are common lines, missing newlines included. */
  lemma EndsAreLines(t0: seq<char>, missing0: bool, t1: seq<char>, missing1: bool, p: nat, s0: nat, s1: nat)
    requires Ends(t0, missing0, t1, missing1, p, s0, s1)
    ensures Head(t0, p, missing0) == Head(t1, p, missing1)
    ensures Tail(t0, s0, missing0) == Tail(t1, s1, missing1)
  {
    hide Lines;
    if missing0 != missing1 {
      NoLines(t0[s0..]);
      NoLines(t1[s1..]);
    }
  }

  method FindIdenticalEnds(buffer0: array<char>, n0: nat, missing0: bool, buffer1: array<char>, n1: nat, missing1: bool,
                           robust: bool, horizonLines: nat)
    returns (prefixEnd: nat, suffixBegin0: nat, suffixBegin1: nat)
    requires n0 < buffer0.Length && n1 < buffer1.Length && buffer0 != buffer1
    requires WholeLines(buffer0[..n0]) && WholeLines(buffer1[..n1])
    requires missing0 ==> n0 > 1 && buffer0[n0 - 2] != '\n'
    requires missing1 ==> n1 > 1 && buffer1[n1 - 2] != '\n'
    modifies buffer0, buffer1
    ensures buffer0[..n0] == old(buffer0[..n0]) && buffer1[..n1] == old(buffer1[..n1])
    ensures Ends(buffer0[..n0], robust && missing0, buffer1[..n1], robust && missing1, prefixEnd, suffixBegin0, suffixBegin1)
    ensures IsPrefix(buffer0[..n0], missing0, buffer1[..n1], missing1, robust, horizonLines, prefixEnd)
    ensures IsSuffix(buffer0[..n0], missing0, buffer1[..n1], missing1, robust, horizonLines, prefixEnd, suffixBegin0)
  {
    hide IsPrefix, IsSuffix;
    prefixEnd := FindPrefix(buffer0, n0, missing0, buffer1, n1, missing1, robust, horizonLines);
    suffixBegin0, suffixBegin1 := FindSuffix(buffer0, n0, missing0, buffer1, n1, missing1, robust, horizonLines, prefixEnd);
    SlicesOf(buffer0[..], n0, prefixEnd, suffixBegin0);
    SlicesOf(buffer1[..], n1, prefixEnd, suffixBegin1);
  }

  lemma SlicesOf(a: seq<char>, n: nat, p: nat, s: nat)
    requires p <= n <= |a| && s <= n
    ensures a[..n][..p] == a[..p] && a[..n][s..] == a[s..n]
  {
  }

  lemma {:induction false} FewLines(x: seq<char>)
    ensures |Lines(x)| <= |x|
    decreases |x|
  {
    if x != [] {
      FewLines(x[1..]);
    }
  }

  lemma ClassifiedLater(keys: seq<Key>, more: seq<Key>, codes: seq<nat>, lines: File)
    requires Classified(keys, codes, lines) && keys <= more
    ensures Classified(more, codes, lines)
  {
    hide KeyOf;
    assert forall k :: 0 <= k < |keys| ==> more[k] == keys[k];
  }

  lemma ClassesAreCodes(keys: seq<Key>, codes0: seq<nat>, a: File, codes1: seq<nat>, b: File)
    requires Distinct(keys) && Classified(keys, codes0, a) && Classified(keys, codes1, b) && |codes0| == |a| && |codes1| == |b|
    ensures CodedExactly(a, codes0, b, codes1)
  {
    forall i, j | 0 <= i < |a| && 0 <= j < |b|
      ensures codes0[i] == codes1[j] <==> a[i] == b[j]
    {
      SameCodeSameLine(keys, codes0, a, codes1, b, i, j);
    }
  }

  /** Number the lines of both files between the ends they have in common. */
  method HashBoth(nbuckets: nat, alloc: nat, t0: seq<char>, missing0: bool, t1: seq<char>, missing1: bool, p: nat, s0: nat, s1: nat)
    returns (codes0: seq<nat>, codes1: seq<nat>, equivMax: nat)
    requires 0 < nbuckets && 0 < alloc && WholeLines(t0) && WholeLines(t1)
    requires Ends(t0, missing0, t1, missing1, p, s0, s1)
    ensures CodedExactly(Middle(t0, p, s0, missing0), codes0, Middle(t1, p, s1, missing1), codes1)
    ensures |codes0| <= |t0| && |codes1| <= |t1|
    ensures forall i :: 0 <= i < |codes0| ==> codes0[i] < equivMax
    ensures forall i :: 0 <= i < |codes1| ==> codes1[i] < equivMax
  {
    hide Lines, Flat, RealLines, CodedExactly, Classified, Distinct, Table.Valid;
    Parts(t0, p, s0);
    Parts(t1, p, s1);
    FewLines(t0[p..s0]);
    FewLines(t1[p..s1]);
    ghost var lines0, lines1 := Lines(t0[p..s0]), Lines(t1[p..s1]);
    ghost var a, b := Middle(t0, p, s0, missing0), Middle(t1, p, s1, missing1);
    var table := new Table(nbuckets, alloc);
    var linbuf0, linbuf1, end0, end1;
    codes0, linbuf0, end0 := FindAndHashEachLine(table, t0, p, s0, missing0, lines0);
    ghost var keys := table.keys;
    codes1, linbuf1, end1 := FindAndHashEachLine(table, t1, p, s1, missing1, lines1);
    ClassifiedLater(keys, table.keys, codes0, a);
    table.ValidSize();
    ClassesAreCodes(table.keys, codes0, a, codes1, b);
    CodesInRange(table.keys, codes0, a);
    CodesInRange(table.keys, codes1, b);
    equivMax := table.index;
  }

  lemma CodesInRange(keys: seq<Key>, codes: seq<nat>, lines: File)
    requires Classified(keys, codes, lines)
    ensures forall i :: 0 <= i < |codes| ==> codes[i] < |keys|
  {
    hide KeyOf;
  }

  /**
   From two texts to a script: it tells by which lines they differ, and nothing if they do not.
   No other way of leaving lines over in both edits fewer, if the lines in between are searched exhaustively:
   without discarding always, and else at least if no line is frequent and the texts are close to each other.
   */
  method ScriptOfTexts(text0: seq<char>, text1: seq<char>, horizonLines: nat, nbuckets: nat, alloc: nat,
                       noDiscards: bool, heuristic: bool, inhibit: bool)
    returns (script: seq<Change>, prefixLines: nat, ghost codes0: seq<int>, ghost codes1: seq<int>)
    requires 0 < nbuckets && 0 < alloc && |text0| + |text1| + 5 < INT_MAX
    ensures IsDiff(script, Lines(text0), Lines(text1), prefixLines) && Separate(script)
    ensures CodedBetween(codes0, codes1, Lines(text0), Lines(text1))
    ensures Exhaustive(codes0, codes1, noDiscards, heuristic) ==> 0 <= Size(script) && Fewest(Size(script), Lines(text0), Lines(text1))
    ensures noDiscards || EasilyCompared(Lines(text0), Lines(text1), heuristic) ==> Exhaustive(codes0, codes1, noDiscards, heuristic)
    ensures text0 == text1 ==> script == []
  {
    hide *;
    var buffer0, n0, missing0 := Prepare(text0);
    var buffer1, n1, missing1 := Prepare(text1);
    PreparedLines(text0, buffer0[..n0], missing0);
    PreparedLines(text1, buffer1[..n1], missing1);
    var p, s0, s1 := FindIdenticalEnds(buffer0, n0, missing0, buffer1, n1, missing1, true, horizonLines);
    var t0, t1 := buffer0[..n0], buffer1[..n1];
    var c0, c1, equivMax := HashBoth(nbuckets, alloc, t0, missing0, t1, missing1, p, s0, s1);
    codes0, codes1 := c0, c1;
    BothParts(text0, t0, missing0, text1, t1, missing1, p, s0, s1);
    var head, a, b, tail := Head(t0, p, missing0), Middle(t0, p, s0, missing0), Middle(t1, p, s1, missing1), Tail(t0, s0, missing0);
    Exact(a, codes0, b, codes1);
    prefixLines := |head|;
    script := FindScript(head, a, b, tail, c0, c1, equivMax, noDiscards, heuristic, inhibit);
    FewestSearched(Size(script), head, a, b, tail, codes0, codes1, noDiscards, heuristic);
  }

  lemma SamePrepared(text: seq<char>, t0: seq<char>, added0: bool, t1: seq<char>, added1: bool)
    requires Prepared(text, t0, added0) && Prepared(text, t1, added1)
    ensures t0 == t1 && added0 == added1
  {
  }

  /** Both texts as lines, cut in three; only the middles can differ. */
  lemma BothParts(text0: seq<char>, t0: seq<char>, missing0: bool, text1: seq<char>, t1: seq<char>, missing1: bool, p: nat, s0: nat, s1: nat)
    requires Prepared(text0, t0, missing0) && Prepared(text1, t1, missing1) && Ends(t0, missing0, t1, missing1, p, s0, s1)
    ensures p <= s0 <= |t0| && p <= s1 <= |t1|
    ensures Lines(text0) == Head(t0, p, missing0) + Middle(t0, p, s0, missing0) + Tail(t0, s0, missing0)
    ensures Lines(text1) == Head(t0, p, missing0) + Middle(t1, p, s1, missing1) + Tail(t0, s0, missing0)
    ensures text0 == text1 ==> Middle(t0, p, s0, missing0) == Middle(t1, p, s1, missing1)
  {
    hide Lines, RealLines, Prepared, LineStart;
    EndsAreLines(t0, missing0, t1, missing1, p, s0, s1);
    RealParts(text0, t0, missing0, p, s0);
    RealParts(text1, t1, missing1, p, s1);
    if text0 == text1 {
      SamePrepared(text0, t0, missing0, t1, missing1);
      assert |t0[s0..]| == |t1[s1..]|;
    }
  }

  lemma Exact(a: File, codes0: seq<int>, b: File, codes1: seq<int>)
    requires CodedExactly(a, codes0, b, codes1)
    ensures Coded(a, codes0, b, codes1) && (a == b ==> codes0 == codes1)
  {
  }

  /** From two texts to a unified diff: patching the one with the hunks gives the other, line by line, whatever the context. */
  method DiffTexts(text0: seq<char>, text1: seq<char>, context: nat, horizonLines: nat, nbuckets: nat, alloc: nat,
                   noDiscards: bool, heuristic: bool, inhibit: bool)
    returns (hunks: seq<Hunk>)
    requires 0 < nbuckets && 0 < alloc && |text0| + |text1| + 5 < INT_MAX
    ensures Patched(hunks, Lines(text0), 0, 0) == Some(Lines(text1))
    ensures AllInContext(hunks, context, |Lines(text0)|, |Lines(text1)|)
    ensures noDiscards || EasilyCompared(Lines(text0), Lines(text1), heuristic) ==> Fewest(EditedInAll(hunks), Lines(text0), Lines(text1))
  {
    hide AllInContext, Lines, Patched, Fewest, IsDiff, Exhaustive, EasilyCompared, CodedBetween;
    ghost var codes0, codes1;
    var script, prefixLines;
    script, prefixLines, codes0, codes1 := ScriptOfTexts(text0, text1, horizonLines, nbuckets, alloc, noDiscards, heuristic, inhibit);
    hunks := PrintContextScript(script, context, Lines(text0), Lines(text1), prefixLines);
  }
}
