/**
 `diff3` in its merge mode, from three texts: two runs of the differ, the blocks they give, and the merged text.
 */
module Diff3Files {
  import opened Wrappers
  import opened Text
  import opened Script
  import opened Context
  import opened DiffText
  import opened Diff3Blocks
  import opened Diff3Merge
  import opened Diff3Laws
  import opened Diff3Kinds
  import opened ThreadFlags
  import opened FewestLines
  import opened Analyze
  import opened Make3Way
  import opened Diff3EdSpec
  import opened Diff3Shown
  import opened Diag

  // ----- From a script to a thread

  /** The change lies within both files. */
  predicate InFiles(c: Change, o: File, f: File, prefix: nat) {
    && 0 <= c.line0 + prefix <= c.End0() + prefix <= |o|
    && 0 <= c.line1 + prefix <= c.End1() + prefix <= |f|
  }

  /** A change in numbers that count from 1, with its lines. */
  function BlockOf(c: Change, o: File, f: File, prefix: nat): DiffBlock
    requires InFiles(c, o, f, prefix)
  {
    DiffBlock(c.line0 + prefix + 1, c.End0() + prefix, c.line1 + prefix + 1, c.End1() + prefix,
              o[c.line0 + prefix..c.End0() + prefix], f[c.line1 + prefix..c.End1() + prefix])
  }

  ghost predicate AreBlocks(u: seq<DiffBlock>, s: seq<Change>, o: File, f: File, prefix: nat) {
    && |u| == |s|
    && forall i :: 0 <= i < |s| ==> InFiles(s[i], o, f, prefix) && u[i] == BlockOf(s[i], o, f, prefix)
  }

  lemma {:induction false} BlocksAreSegment(u: seq<DiffBlock>, s: seq<Change>, o: File, f: File, prefix: nat, p0: int, p1: int, q0: int, q1: int)
    requires AreBlocks(u, s, o, f, prefix) && Tied(s, o, f, prefix, p0, p1, q0, q1)
    ensures Segment(u, o, f, p0 + prefix, p1 + prefix, q0 + prefix, q1 + prefix)
    decreases |s|
  {
    hide Equal, Common, Okay;
    if s == [] {
      EqualIsCommon(o, f, prefix, p0, p1, q0, q1);
    } else {
      var c := s[0];
      assert u[0] == BlockOf(c, o, f, prefix) && AreBlocks(u[1..], s[1..], o, f, prefix);
      hide AreBlocks;
      EqualIsCommon(o, f, prefix, p0, p1, c.line0, c.line1);
      ChangeIsOkay(c, o, f, prefix);
      BlocksAreSegment(u[1..], s[1..], o, f, prefix, c.End0(), c.End1(), q0, q1);
    }
  }

  lemma EqualIsCommon(o: File, f: File, prefix: nat, p0: int, p1: int, q0: int, q1: int)
    requires Equal(o, f, prefix, p0, p1, q0, q1)
    ensures Common(o, f, p0 + prefix, p1 + prefix, q0 + prefix, q1 + prefix)
  {
  }

  lemma ChangeIsOkay(c: Change, o: File, f: File, prefix: nat)
    requires InFiles(c, o, f, prefix) && 0 < c.deleted + c.inserted
    ensures Okay(BlockOf(c, o, f, prefix), o, f)
  {
  }

  /** The blocks of a script of two files are a thread. */
  lemma BlocksAreThread(u: seq<DiffBlock>, s: seq<Change>, o: File, f: File, prefix: nat)
    requires AreBlocks(u, s, o, f, prefix) && IsDiff(s, o, f, prefix) && Separate(s)
    ensures IsThread(u, o, f)
  {
    hide Segment, Tied;
    BlocksAreSegment(u, s, o, f, prefix, 0 - prefix, 0 - prefix, |o| - prefix, |f| - prefix);
    forall i, j | 0 <= i < j < |u| && j == i + 1
      ensures u[i].highC + 1 < u[j].lowC
    {
      assert s[i].End1() < s[j].line1;
    }
  }

  lemma DiffInFiles(s: seq<Change>, o: File, f: File, prefix: nat)
    requires IsDiff(s, o, f, prefix)
    ensures forall i :: 0 <= i < |s| ==> InFiles(s[i], o, f, prefix)
  {
    TiedBounds(s, o, f, prefix, 0 - prefix, 0 - prefix, |o| - prefix, |f| - prefix);
  }

  /** The blocks read from a two-way diff of a file and the common file. */
  method ProcessDiff(text: seq<char>, common: seq<char>, horizonLines: nat, nbuckets: nat, alloc: nat,
                     noDiscards: bool, heuristic: bool, inhibit: bool)
    returns (thread: seq<DiffBlock>)
    requires 0 < nbuckets && 0 < alloc && |text| + |common| + 5 < INT_MAX
    ensures IsThread(thread, Lines(text), Lines(common))
    ensures text == common ==> thread == []
    ensures noDiscards || EasilyCompared(Lines(text), Lines(common), heuristic) ==> ShortestThread(thread, Lines(text), Lines(common))
  {
    hide Lines, IsDiff, Separate, IsThread, Fewest, ShortestThread, Exhaustive, EasilyCompared, CodedBetween;
    ghost var codes0, codes1;
    var script, prefix;
    script, prefix, codes0, codes1 := ScriptOfTexts(text, common, horizonLines, nbuckets, alloc, noDiscards, heuristic, inhibit);
    ghost var o, f := Lines(text), Lines(common);
    var lines0, lines1 := Lines(text), Lines(common);
    DiffInFiles(script, o, f, prefix);
    thread := [];
    for i := 0 to |script|
      invariant AreBlocks(thread, script[..i], o, f, prefix)
    {
      assert InFiles(script[i], o, f, prefix);
      thread := thread + [BlockOf(script[i], lines0, lines1, prefix)];
    }
    assert script[..|script|] == script;
    BlocksAreThread(thread, script, o, f, prefix);
    BlocksChange(thread, script, o, f, prefix);
    if Exhaustive(codes0, codes1, noDiscards, heuristic) {
      FewestIsShortest(thread, o, f);
    }
  }

  lemma {:induction false} BlocksChange(u: seq<DiffBlock>, s: seq<Change>, o: File, f: File, prefix: nat)
    requires AreBlocks(u, s, o, f, prefix)
    ensures Changed(u) == Size(s)
    decreases |s|
  {
    if s != [] {
      assert u[0] == BlockOf(s[0], o, f, prefix) && AreBlocks(u[1..], s[1..], o, f, prefix);
      BlocksChange(u[1..], s[1..], o, f, prefix);
    }
  }

  // ----- Texts as lines

  lemma NewlineFirst(rest: File)
    requires IsText(rest)
    ensures IsText(["\n"] + rest) && Flat(["\n"] + rest) == "\n" + Flat(rest)
  {
    var all := ["\n"] + rest;
    assert all[1..] == rest;
    assert forall i :: 0 < i < |all| ==> all[i] == rest[i - 1];
  }

  lemma CharFirst(c: char, rest: File)
    requires IsText(rest) && rest != [] && c != '\n'
    ensures var all := [[c] + rest[0]] + rest[1..];
            IsText(all) && Flat(all) == [c] + Flat(rest)
  {
    LongerLine(c, rest[0]);
    LongerFlat(c, rest);
    hide IsLine, Ended, Flat;
    var all := [[c] + rest[0]] + rest[1..];
    assert forall i :: 0 < i < |all| ==> all[i] == rest[i];
  }

  lemma LongerLine(c: char, line: Line)
    requires IsLine(line) && c != '\n'
    ensures IsLine([c] + line) && (Ended([c] + line) <==> Ended(line))
  {
  }

  lemma LongerFlat(c: char, rest: File)
    requires rest != []
    ensures Flat([[c] + rest[0]] + rest[1..]) == [c] + Flat(rest)
  {
    hide *;
    FlatFirst([c] + rest[0], rest[1..]);
    FlatFirst(rest[0], rest[1..]);
    assert rest == [rest[0]] + rest[1..];
    Regrouped([c], rest[0], Flat(rest[1..]));
  }

  lemma Regrouped(a: Line, b: Line, c: Line)
    ensures (a + b) + c == a + (b + c)
  {
  }

  lemma FlatFirst(line: Line, rest: File)
    ensures Flat([line] + rest) == line + Flat(rest)
  {
    assert ([line] + rest)[1..] == rest;
  }

  /** Cut into lines, a text is still all there. */
  lemma {:induction false} LinesAreText(x: seq<char>)
    ensures IsText(Lines(x)) && Flat(Lines(x)) == x && (Lines(x) == [] ==> x == [])
    decreases |x|
  {
    if x != [] {
      LinesAreText(x[1..]);
      hide IsText, Flat;
      if x[0] == '\n' {
        NewlineFirst(Lines(x[1..]));
      } else if Lines(x[1..]) == [] {
        assert x == [x[0]];
        OneLine(x);
      } else {
        CharFirst(x[0], Lines(x[1..]));
      }
    }
  }

  lemma OneLine(x: Line)
    requires |x| == 1
    ensures IsText([x]) && Flat([x]) == x
  {
    assert [x][1..] == [];
  }

  // ----- The three-way diff

  /** Two runs of the differ, and the three-way diff; from shortest two-way diffs, every type in it is true. */
  method Diff3Texts(mine: seq<char>, older: seq<char>, yours: seq<char>, horizonLines: nat, nbuckets: nat, alloc: nat,
                    noDiscards: bool, heuristic: bool, inhibit: bool)
    returns (r: Option<seq<Diff3Block>>, ghost used: seq<seq<seq<DiffBlock>>>, ghost thread0: seq<DiffBlock>, ghost thread1: seq<DiffBlock>)
    requires 0 < nbuckets && 0 < alloc && |mine| + |older| + 5 < INT_MAX && |yours| + |older| + 5 < INT_MAX
    ensures r.Some? && IsDiff3(r.value, [Lines(mine), Lines(yours), Lines(older)])
    ensures IsThread(thread0, Lines(mine), Lines(older)) && IsThread(thread1, Lines(yours), Lines(older))
    ensures Woven(r.value, used, [[], []], thread0, thread1)
    ensures noDiscards || (EasilyCompared(Lines(mine), Lines(older), heuristic) && EasilyCompared(Lines(yours), Lines(older), heuristic))
            ==> AllTelling(r.value, [Lines(mine), Lines(yours), Lines(older)])
  {
    hide Lines, IsThread, IsDiff3, ShortestThread, AllTelling, EasilyCompared, Woven;
    var t1 := ProcessDiff(yours, older, horizonLines, nbuckets, alloc, noDiscards, heuristic, inhibit);
    var t0 := ProcessDiff(mine, older, horizonLines, nbuckets, alloc, noDiscards, heuristic, inhibit);
    thread0, thread1 := t0, t1;
    ghost var f := [Lines(mine), Lines(yours), Lines(older)];
    r, used := Make3WayDiff(t0, t1, f);
    if noDiscards || (EasilyCompared(Lines(mine), Lines(older), heuristic) && EasilyCompared(Lines(yours), Lines(older), heuristic)) {
      ShortestAllTell(r.value, used, t0, t1, f);
    }
  }

  ghost predicate AllTelling(bs: seq<Diff3Block>, f: seq<File>) {
    forall i :: 0 <= i < |bs| ==> InRange(bs[i], f) && Telling(bs[i], f)
  }

  lemma ShortestAllTell(bs: seq<Diff3Block>, used: seq<seq<seq<DiffBlock>>>, thread0: seq<DiffBlock>, thread1: seq<DiffBlock>, f: seq<File>)
    requires IsDiff3(bs, f) && Woven(bs, used, [[], []], thread0, thread1)
    requires ShortestThread(thread0, f[0], f[FILEC]) && ShortestThread(thread1, f[1], f[FILEC])
    ensures AllTelling(bs, f)
  {
    assert WovenOf(bs, used, thread0, thread1, f);
    hide WovenOf, IsDiff3, Woven, ShortestThread, Telling;
    forall i | 0 <= i < |bs|
      ensures InRange(bs[i], f) && Telling(bs[i], f)
    {
      ShortestTell(bs, used, thread0, thread1, f, i);
    }
  }

  // ----- The laws of merging

  /**
   Merge two files that have a common ancestor.  If only one of them differs from it, the other is taken over;
   if both are the same and the differ found the same changes in both, as it does, that is the result.
   */
  method MergeTexts(mine: seq<char>, older: seq<char>, yours: seq<char>, o: Options, horizonLines: nat, nbuckets: nat, alloc: nat,
                    noDiscards: bool, heuristic: bool, inhibit: bool)
    returns (r: Option<Outcome>, output: string, ghost blocks: seq<Diff3Block>, ghost used: seq<seq<seq<DiffBlock>>>,
             ghost thread0: seq<DiffBlock>, ghost thread1: seq<DiffBlock>)
    requires 0 < nbuckets && 0 < alloc && |mine| + |older| + 5 < INT_MAX && |yours| + |older| + 5 < INT_MAX
    ensures IsThread(thread0, Lines(mine), Lines(older)) && IsThread(thread1, Lines(yours), Lines(older))
    ensures IsDiff3(blocks, [Lines(mine), Lines(yours), Lines(older)]) && Woven(blocks, used, [[], []], thread0, thread1)
    ensures r == Some(Done(HasConflict(blocks, o))) && output == Merged(blocks, [Lines(mine), Lines(yours), Lines(older)], o, 0)
    ensures !o.flagging || PlainLabels(o) ==> Lines(output) == ShownFile(blocks, [Lines(mine), Lines(yours), Lines(older)], o, 0)
    ensures yours == older ==> r == Some(Done(false)) && output == mine
    ensures mine == older && !o.overlapOnly ==> r == Some(Done(false)) && output == yours
    ensures mine == yours && thread0 == thread1 ==> r == Some(Done(false)) && output == mine
    ensures NothingTaken(blocks, o) ==> r == Some(Done(false)) && output == mine
  {
    hide NothingTaken, Lines, Flat, IsThread, Merged, HasConflict, IsDiff3, Woven, ShownFile, PlainLabels;
    var t1 := ProcessDiff(yours, older, horizonLines, nbuckets, alloc, noDiscards, heuristic, inhibit);
    var t0 := ProcessDiff(mine, older, horizonLines, nbuckets, alloc, noDiscards, heuristic, inhibit);
    thread0, thread1 := t0, t1;
    ghost var f := [Lines(mine), Lines(yours), Lines(older)];
    LinesAreText(mine);
    LinesAreText(yours);
    LinesAreText(older);
    r, output, blocks, used := MergeFiles(t0, t1, mine, o, f);
    if !o.flagging || PlainLabels(o) {
      LinesOfMerged(blocks, f, o);
    }
  }
}
