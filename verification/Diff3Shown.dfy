/**
 The merged file line by line, for files of which any may lack its last newline: a side of a conflict
 is given the newline it lacks, and the closing label goes without if YOURFILE's side did.
 */
module Diff3Shown {
  import opened Text
  import opened Diff3Blocks
  import opened Diff3Merge
  import opened Diff3EdSpec

  function WithNewline(line: Line): Line {
    if Ended(line) then line else line + "\n"
  }

  /** The same lines, each with its newline. */
  function EachEnded(lines: seq<Line>): (ended: seq<Line>)
    ensures |ended| == |lines| && forall i :: 0 <= i < |lines| ==> ended[i] == WithNewline(lines[i])
  {
    seq(|lines|, i requires 0 <= i < |lines| => WithNewline(lines[i]))
  }

  /** The closing label of a conflict goes without a newline if YOURFILE's last line does. */
  function LastLabel(yours: seq<Line>, o: Options): Line {
    ">>>>>>> " + o.name2 + (if Unended(yours) then "" else "\n")
  }

  /** The lines of a conflict: each side on lines of its own. */
  ghost function ShownConflict(mine: seq<Line>, older: seq<Line>, yours: seq<Line>, o: Options): File {
    [Label("<<<<<<<", o.name0)] + EachEnded(mine)
    + (if o.show2nd then [Label("|||||||", o.name1)] + EachEnded(older) else [])
    + [BAR] + EachEnded(yours) + [LastLabel(yours, o)]
  }

  ghost function ShownBlock(b: Diff3Block, f: seq<File>, o: Options): File
    requires InRange(b, f)
  {
    if Conflicting(b, o) then ShownConflict(Mine(b, f), Older(b, f), Yours(b, f), o) else Yours(b, f)
  }

  /** The lines of MYFILE from one on, with the blocks merged in. */
  ghost function ShownFile(bs: seq<Diff3Block>, f: seq<File>, o: Options, pos: int): File
    requires |f| == 3
  {
    if bs == [] then LinesFrom(f[0], pos)
    else if Skipped(bs[0], o) || !InRange(bs[0], f) then ShownFile(bs[1..], f, o, pos)
    else LinesTo(f[0], pos, bs[0].low[0] - 1) + ShownBlock(bs[0], f, o) + ShownFile(bs[1..], f, o, bs[0].high[0])
  }

  // ----- The text of these lines

  /** Of a text cut into lines, only the last line can be given a newline. */
  lemma EachEndedFlat(lines: seq<Line>)
    requires IsText(lines)
    ensures Flat(EachEnded(lines)) == Flat(lines) + Newline(Unended(lines))
  {
    if lines != [] {
      var n := |lines| - 1;
      assert lines == lines[..n] + [lines[n]] && EachEnded(lines) == lines[..n] + [WithNewline(lines[n])];
      hide IsText, Ended;
      FlatJoin(lines[..n], [lines[n]]);
      FlatJoin(lines[..n], [WithNewline(lines[n])]);
      OneFlat(lines[n]);
      OneFlat(WithNewline(lines[n]));
    }
  }

  lemma OneFlat(line: Line)
    ensures Flat([line]) == line
  {
    assert [line][1..] == [];
  }

  lemma TwoFlat(a: string, b: File, c: File)
    ensures Flat([a] + b + c) == a + Flat(b) + Flat(c)
  {
    hide Flat;
    FlatJoin([a] + b, c);
    FlatJoin([a], b);
    OneFlat(a);
  }

  /** What is written for a conflict are its lines. */
  lemma ConflictIsShown(mine: seq<Line>, older: seq<Line>, yours: seq<Line>, o: Options)
    requires IsText(mine) && IsText(older) && IsText(yours)
    ensures (ConflictHead(mine, older, o) + Flat(yours)) + ConflictTail(yours, o) == Flat(ShownConflict(mine, older, yours, o))
  {
    hide *;
    EachEndedFlat(mine);
    EachEndedFlat(older);
    EachEndedFlat(yours);
    HeadIsShown(mine, older, o);
    TailIsShown(yours, o);
    var head, tail := ShownHead(mine, older, o), [BAR] + EachEnded(yours) + [LastLabel(yours, o)];
    FlatJoin(head, tail);
    ShownSplit(mine, older, yours, o);
    Regroup(ConflictHead(mine, older, o), Flat(head), BAR, Flat(yours), ConflictTail(yours, o));
  }

  lemma Regroup(h: string, x: string, bar: string, y: string, t: string)
    requires h == x + bar
    ensures (h + y) + t == x + (bar + (y + t))
  {
  }

  ghost function ShownHead(mine: seq<Line>, older: seq<Line>, o: Options): File {
    [Label("<<<<<<<", o.name0)] + EachEnded(mine) + (if o.show2nd then [Label("|||||||", o.name1)] + EachEnded(older) else [])
  }

  lemma ShownSplit(mine: seq<Line>, older: seq<Line>, yours: seq<Line>, o: Options)
    ensures ShownConflict(mine, older, yours, o) == ShownHead(mine, older, o) + ([BAR] + EachEnded(yours) + [LastLabel(yours, o)])
  {
    hide Label, LastLabel, EachEnded;
  }

  lemma HeadIsShown(mine: seq<Line>, older: seq<Line>, o: Options)
    requires Flat(EachEnded(mine)) == Flat(mine) + Newline(Unended(mine))
    requires Flat(EachEnded(older)) == Flat(older) + Newline(Unended(older))
    ensures ConflictHead(mine, older, o) == Flat(ShownHead(mine, older, o)) + BAR
  {
    hide Unended, EachEnded, Newline, Flat;
    var a, m := Label("<<<<<<<", o.name0), Label("|||||||", o.name1);
    if o.show2nd {
      TwoFlat(a, EachEnded(mine), [m] + EachEnded(older));
      FlatJoin([m], EachEnded(older));
      OneFlat(m);
    } else {
      TwoFlat(a, EachEnded(mine), []);
      NoFlat();
    }
  }

  lemma NoFlat()
    ensures Flat([]) == ""
  {
  }

  lemma TailIsShown(yours: seq<Line>, o: Options)
    requires Flat(EachEnded(yours)) == Flat(yours) + Newline(Unended(yours))
    ensures Flat([BAR] + EachEnded(yours) + [LastLabel(yours, o)]) == BAR + (Flat(yours) + ConflictTail(yours, o))
  {
    hide Unended, EachEnded, Flat;
    TwoFlat(BAR, EachEnded(yours), [LastLabel(yours, o)]);
    OneFlat(LastLabel(yours, o));
  }

  lemma SidesAreText(b: Diff3Block, f: seq<File>)
    requires InRange(b, f) && AreText(f)
    ensures IsText(Mine(b, f)) && IsText(Older(b, f)) && IsText(Yours(b, f))
  {
    hide IsLine, Ended;
  }

  lemma BlockIsShown(b: Diff3Block, f: seq<File>, o: Options)
    requires InRange(b, f) && AreText(f)
    ensures BlockText(b, f, o) == Flat(ShownBlock(b, f, o))
  {
    SidesAreText(b, f);
    hide Mine, Older, Yours, Conflicting, ConflictHead, ConflictTail, ShownConflict, IsText;
    if Conflicting(b, o) {
      ConflictIsShown(Mine(b, f), Older(b, f), Yours(b, f), o);
    }
  }

  lemma {:induction false} MergedIsShown(bs: seq<Diff3Block>, f: seq<File>, o: Options, pos: int)
    requires AreText(f)
    ensures Merged(bs, f, o, pos) == Flat(ShownFile(bs, f, o, pos))
    decreases |bs|
  {
    hide Skipped, InRange, Flat, BlockText, ShownBlock, AreText;
    if bs != [] {
      var b := bs[0];
      if Skipped(b, o) || !InRange(b, f) {
        MergedIsShown(bs[1..], f, o, pos);
      } else {
        RangeSize(b, f);
        MergedIsShown(bs[1..], f, o, b.high[0]);
        BlockIsShown(b, f, o);
        var gap, block, rest := LinesTo(f[0], pos, b.low[0] - 1), ShownBlock(b, f, o), ShownFile(bs[1..], f, o, b.high[0]);
        FlatJoin(gap + block, rest);
        FlatJoin(gap, block);
      }
    }
  }

  lemma RangeSize(b: Diff3Block, f: seq<File>)
    requires InRange(b, f)
    ensures |f| == 3 && |b.low| == 3 && |b.high| == 3
  {
  }

  // ----- They are the lines of this text

  lemma TextJoin(a: File, b: File)
    requires IsText(a) && IsText(b) && (b != [] ==> AllEnded(a))
    ensures IsText(a + b)
  {
    hide IsLine, Ended;
  }

  lemma EndedIsText(a: File)
    requires AllEnded(a)
    ensures IsText(a)
  {
  }

  lemma WithNewlineIsLine(line: Line)
    requires IsLine(line)
    ensures IsLine(WithNewline(line)) && Ended(WithNewline(line))
  {
  }

  lemma EachIsEnded(lines: seq<Line>)
    requires IsText(lines)
    ensures AllEnded(EachEnded(lines))
  {
    hide IsLine, Ended, WithNewline;
    forall i | 0 <= i < |lines|
      ensures IsLine(EachEnded(lines)[i]) && Ended(EachEnded(lines)[i])
    {
      WithNewlineIsLine(lines[i]);
    }
  }

  lemma BarIsLine()
    ensures IsLine(BAR) && Ended(BAR)
  {
  }

  lemma HeadIsEnded(mine: seq<Line>, older: seq<Line>, o: Options)
    requires IsText(mine) && IsText(older) && PlainLabels(o)
    ensures AllEnded(ShownHead(mine, older, o))
  {
    hide IsText, AllEnded, IsLine, Ended, Label;
    var a, m := Label("<<<<<<<", o.name0), Label("|||||||", o.name1);
    LabelIsLine("<<<<<<<", o.name0);
    LabelIsLine("|||||||", o.name1);
    OneEnded(a);
    OneEnded(m);
    EachIsEnded(mine);
    EachIsEnded(older);
    AllEndedJoin([a], EachEnded(mine));
    AllEndedJoin([m], EachEnded(older));
    AllEndedJoin([a] + EachEnded(mine), [m] + EachEnded(older));
    assert [a] + EachEnded(mine) + [] == [a] + EachEnded(mine);
  }

  lemma LastLabelIsLine(yours: seq<Line>, o: Options)
    requires PlainLabels(o)
    ensures IsLine(LastLabel(yours, o)) && (Ended(LastLabel(yours, o)) <==> !Unended(yours))
  {
    hide Unended;
    var line := LastLabel(yours, o);
    assert line[|line| - 1] == '\n' <==> !Unended(yours) by {
      if Unended(yours) {
        assert line == ">>>>>>> " + o.name2;
        assert o.name2 == "" ==> line[|line| - 1] == ' ';
        assert o.name2 != "" ==> line[|line| - 1] == o.name2[|o.name2| - 1];
      }
    }
    forall i | 0 <= i < |line| - 1
      ensures line[i] != '\n'
    {
      assert i < 8 ==> line[i] == ">>>>>>> "[i];
      assert i >= 8 ==> line[i] == o.name2[i - 8];
    }
  }

  /** A conflict is a text of its own, and one of whole lines if YOURFILE's side is. */
  lemma ConflictIsText(mine: seq<Line>, older: seq<Line>, yours: seq<Line>, o: Options)
    requires IsText(mine) && IsText(older) && IsText(yours) && PlainLabels(o)
    ensures IsText(ShownConflict(mine, older, yours, o))
    ensures !Unended(yours) ==> AllEnded(ShownConflict(mine, older, yours, o))
  {
    hide IsText, AllEnded, IsLine, Ended, LastLabel, ShownConflict, ShownHead, PlainLabels, Unended;
    HeadIsEnded(mine, older, o);
    EachIsEnded(yours);
    BarIsLine();
    OneEnded(BAR);
    AllEndedJoin([BAR], EachEnded(yours));
    var head, tail, last := ShownHead(mine, older, o), [BAR] + EachEnded(yours), LastLabel(yours, o);
    AllEndedJoin(head, tail);
    LastLabelIsLine(yours, o);
    OneIsText(last);
    EndedIsText(head + tail);
    TextJoin(head + tail, [last]);
    ShownSplit(mine, older, yours, o);
    assert head + (tail + [last]) == (head + tail) + [last];
    if !Unended(yours) {
      OneEnded(last);
      AllEndedJoin(head + tail, [last]);
    }
  }

  lemma OneIsText(line: Line)
    requires IsLine(line)
    ensures IsText([line])
  {
  }

  lemma BlockIsText(b: Diff3Block, f: seq<File>, o: Options)
    requires InRange(b, f) && AreText(f) && (o.flagging ==> PlainLabels(o))
    ensures IsText(ShownBlock(b, f, o))
    ensures !Unended(Yours(b, f)) ==> AllEnded(ShownBlock(b, f, o))
  {
    SidesAreText(b, f);
    hide Mine, Older, Yours, ShownConflict, PlainLabels;
    if Conflicting(b, o) {
      ConflictIsText(Mine(b, f), Older(b, f), Yours(b, f), o);
    }
  }

  /** A last line without its newline ends all three files, if it is in YOURFILE's side of a block. */
  lemma NothingAfter(bs: seq<Diff3Block>, f: seq<File>, p: seq<int>)
    requires Rest(bs, f, p) && AreText(f) && bs != [] && InRange(bs[0], f) && Unended(Yours(bs[0], f))
    ensures bs[1..] == [] && bs[0].high[0] == |f[0]|
  {
    hide IsLine, Pointers, RightKind, Rest;
    var b := bs[0];
    LinesAfter(bs, f, p);
    assert Yours(b, f)[|Yours(b, f)| - 1] == f[1][b.high[1] - 1];
  }

  lemma LinesAfter(bs: seq<Diff3Block>, f: seq<File>, p: seq<int>)
    requires Rest(bs, f, p) && bs != [] && InRange(bs[0], f)
    ensures bs[1..] != [] ==> bs[0].high[1] < |f[1]|
    ensures bs[1..] == [] ==> |f[0]| - bs[0].high[0] == |f[1]| - bs[0].high[1]
  {
    hide Pointers, RightKind, Slice;
    RestNext(bs, f, p);
    if bs[1..] != [] {
      RestNext(bs[1..], f, bs[0].high);
      assert bs[1..][0] == bs[1] && Below(bs[0], bs[1]);
    }
  }

  /** The merged lines are a text, whatever newlines are missing. */
  lemma {:induction false} ShownIsText(bs: seq<Diff3Block>, f: seq<File>, o: Options, p: seq<int>, pos: int)
    requires Rest(bs, f, p) && AreText(f) && (o.flagging ==> PlainLabels(o)) && |f| == 3 && |p| == 3 && 0 <= pos <= p[0] <= |f[0]|
    ensures IsText(ShownFile(bs, f, o, pos))
    decreases |bs|
  {
    if bs == [] {
      assert ShownFile(bs, f, o, pos) == f[0][pos..];
    } else {
      var b := bs[0];
      RestNext(bs, f, p);
      RestIsNext(bs, f, p);
      hide *;
      if Skipped(b, o) {
        ShownIsText(bs[1..], f, o, b.high, pos);
        ShownStep(bs, f, o, pos);
      } else {
        ShownIsText(bs[1..], f, o, b.high, b.high[0]);
        OneBlockIsText(bs, f, o, p, pos);
      }
    }
  }

  lemma ShownStep(bs: seq<Diff3Block>, f: seq<File>, o: Options, pos: int)
    requires |f| == 3 && bs != [] && InRange(bs[0], f)
    ensures ShownFile(bs, f, o, pos)
            == if Skipped(bs[0], o) then ShownFile(bs[1..], f, o, pos)
               else LinesTo(f[0], pos, bs[0].low[0] - 1) + ShownBlock(bs[0], f, o) + ShownFile(bs[1..], f, o, bs[0].high[0])
  {
    hide Skipped, ShownBlock, LinesTo;
  }

  lemma OneBlockIsText(bs: seq<Diff3Block>, f: seq<File>, o: Options, p: seq<int>, pos: int)
    requires Rest(bs, f, p) && AreText(f) && (o.flagging ==> PlainLabels(o)) && bs != [] && InRange(bs[0], f) && |p| == 3
    requires 0 <= pos <= p[0] < bs[0].low[0] && !Skipped(bs[0], o)
    requires IsText(ShownFile(bs[1..], f, o, bs[0].high[0]))
    ensures IsText(ShownFile(bs, f, o, pos))
  {
    hide *;
    RangeSize(bs[0], f);
    var gap, block, rest := LinesTo(f[0], pos, bs[0].low[0] - 1), ShownBlock(bs[0], f, o), ShownFile(bs[1..], f, o, bs[0].high[0]);
    ShownStep(bs, f, o, pos);
    GapIsEnded(bs, f, p, pos);
    BlockIsText(bs[0], f, o);
    if Unended(Yours(bs[0], f)) {
      NothingAfter(bs, f, p);
      NothingShown(f, o);
    }
    EndedIsText(gap);
    TextJoin(block, rest);
    TextJoin(gap, block + rest);
    Associate(gap, block, rest);
  }

  lemma Associate(a: File, b: File, c: File)
    ensures a + (b + c) == a + b + c
  {
  }

  lemma NothingShown(f: seq<File>, o: Options)
    requires |f| == 3
    ensures ShownFile([], f, o, |f[0]|) == []
  {
  }

  lemma GapIsEnded(bs: seq<Diff3Block>, f: seq<File>, p: seq<int>, pos: int)
    requires Rest(bs, f, p) && AreText(f) && bs != [] && InRange(bs[0], f) && 0 <= pos < bs[0].low[0]
    ensures AllEnded(LinesTo(f[0], pos, bs[0].low[0] - 1))
  {
    Merger.LinesAreEnded(bs, f, p);
    hide IsLine, Ended;
  }

  /** Cutting the merged text gives the lines shown. */
  lemma LinesOfMerged(bs: seq<Diff3Block>, f: seq<File>, o: Options)
    requires IsDiff3(bs, f) && AreText(f) && (o.flagging ==> PlainLabels(o))
    ensures |f| == 3 && Lines(Merged(bs, f, o, 0)) == ShownFile(bs, f, o, 0)
  {
    Merger.RestStart(bs, f);
    hide *;
    RestShape(bs, f, [0, 0, 0]);
    ShownIsText(bs, f, o, [0, 0, 0], 0);
    MergedIsShown(bs, f, o, 0);
    LinesOfText(ShownFile(bs, f, o, 0));
  }

  /** Cutting what is written for a block gives its lines: those of a conflict, or YOURFILE's. */
  lemma LinesOfBlock(b: Diff3Block, f: seq<File>, o: Options)
    requires InRange(b, f) && AreText(f) && (o.flagging ==> PlainLabels(o))
    ensures Lines(BlockText(b, f, o)) == ShownBlock(b, f, o)
  {
    hide *;
    BlockIsText(b, f, o);
    BlockIsShown(b, f, o);
    LinesOfText(ShownBlock(b, f, o));
  }
}
