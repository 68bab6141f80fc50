/**
 `output_diff3_edscript`: print the ed script for a three-way diff, last block first.
 */
module Diff3Ed {
  import opened Wrappers
  import opened Text
  import opened Diff3Blocks
  import opened Diff3Merge
  import Laws = Diff3Laws
  import Make3Way
  import Ed = EdUtility
  import opened EdUtility
  import opened EdWriting
  import opened Diff3EdSpec
  import opened Diff3EdRun

  // ----- The merged file as lines

  lemma {:induction false} MergedIsLines(bs: seq<Diff3Block>, f: seq<File>, o: Options, p: seq<int>)
    requires Rest(bs, f, p) && AllEnded(f[0]) && AllEnded(f[1]) && AllEnded(f[2])
    requires AllInRange(bs, f)
    ensures Merged(bs, f, o, p[0]) == Flat(MergedLines(bs, f, o, p[0]))
    decreases |bs|
  {
    if bs != [] {
      var b := bs[0];
      RestNext(bs, f, p);
      hide *;
      MergedIsLines(bs[1..], f, o, b.high);
      OneBlockLines(bs, f, o, p);
    }
  }

  lemma OneBlockLines(bs: seq<Diff3Block>, f: seq<File>, o: Options, p: seq<int>)
    requires Rest(bs, f, p) && AllEnded(f[0]) && AllEnded(f[1]) && AllEnded(f[2]) && bs != []
    requires AllInRange(bs, f) && InRange(bs[0], f)
    requires Merged(bs[1..], f, o, bs[0].high[0]) == Flat(MergedLines(bs[1..], f, o, bs[0].high[0]))
    ensures Merged(bs, f, o, p[0]) == Flat(MergedLines(bs, f, o, p[0]))
  {
    var b := bs[0];
    assert |p| == 3;
    hide *;
    TailInRange(bs, f);
    Laws.MergedStep(bs, f, o, p);
    UnrollLines(bs, f, o, p[0]);
    LinesStep(b, f, o, p[0], bs[1..]);
    BlockLinesFlat(b, f, o);
  }

  lemma UnrollLines(bs: seq<Diff3Block>, f: seq<File>, o: Options, p: int)
    requires |f| == 3 && bs != [] && AllInRange(bs, f) && AllInRange(bs[1..], f) && InRange(bs[0], f)
    ensures MergedLines(bs, f, o, p)
            == LinesTo(f[0], p, bs[0].low[0] - 1) + (MergedBlock(bs[0], f, o) + MergedLines(bs[1..], f, o, bs[0].high[0]))
  {
    hide MergedBlock, LinesTo, AllInRange;
  }

  lemma LinesStep(b: Diff3Block, f: seq<File>, o: Options, p: int, bs: seq<Diff3Block>)
    requires InRange(b, f) && 0 <= p <= b.low[0] - 1 <= |f[0]|
    requires AllInRange(bs, f)
    ensures var m, gap := MergedLines(bs, f, o, b.high[0]), LinesTo(f[0], p, b.low[0] - 1);
            && Flat(gap + (MergedBlock(b, f, o) + m)) == Flat(gap) + Flat(MergedBlock(b, f, o)) + Flat(m)
            && (Skipped(b, o) ==> Flat(gap) + Flat(MergedBlock(b, f, o)) == Flat(f[0][p..b.high[0]]))
            && gap == f[0][p..b.low[0] - 1]
  {
    var m, gap := MergedLines(bs, f, o, b.high[0]), LinesTo(f[0], p, b.low[0] - 1);
    GapAndMine(b, f, p);
    SkippedLines(b, f, o);
    hide *;
    FlatThree(gap, MergedBlock(b, f, o), m);
    FlatJoin(gap, Mine(b, f));
  }

  lemma SkippedLines(b: Diff3Block, f: seq<File>, o: Options)
    requires InRange(b, f)
    ensures Skipped(b, o) ==> MergedBlock(b, f, o) == Mine(b, f)
  {
    hide Skipped, Mine, Yours, ConflictLines, Conflicting;
  }

  lemma FlatThree(a: File, b: File, c: File)
    ensures Flat(a + (b + c)) == Flat(a) + Flat(b) + Flat(c)
  {
    hide Flat;
    FlatJoin(a, b + c);
    FlatJoin(b, c);
  }

  lemma GapAndMine(b: Diff3Block, f: seq<File>, p: int)
    requires InRange(b, f) && 0 <= p <= b.low[0] - 1 <= |f[0]|
    ensures LinesTo(f[0], p, b.low[0] - 1) == f[0][p..b.low[0] - 1]
    ensures LinesTo(f[0], p, b.low[0] - 1) + Mine(b, f) == f[0][p..b.high[0]]
  {
  }

  // ----- Printing

  /** The blocks in the opposite order. */
  method ReverseDiff3Blocklist(bs: seq<Diff3Block>) returns (prev: seq<Diff3Block>)
    ensures |prev| == |bs| && forall i :: 0 <= i < |bs| ==> prev[i] == bs[|bs| - 1 - i]
  {
    prev := [];
    var n := 0;
    while n < |bs|
      invariant 0 <= n <= |bs| && |prev| == n && forall i :: 0 <= i < n ==> prev[i] == bs[n - 1 - i]
    {
      prev := [bs[n]] + prev;
      n := n + 1;
    }
  }

  /** Marks a conflict in the ed script. */
  predicate Marked(b: Diff3Block, o: Options) {
    !Skipped(b, o) && EdConflict(b, o)
  }

  predicate HasMarked(bs: seq<Diff3Block>, o: Options) {
    exists i :: 0 <= i < |bs| && Marked(bs[i], o)
  }

  ghost function Closing(o: Options): seq<Line> {
    if o.finalWrite then ["w\n", "q\n"] else []
  }

  lemma NothingDotted()
    ensures DottedAll([]) == [] && !LeadingDot([])
  {
  }

  lemma OneDotted(line: Line)
    ensures LeadingDot([line]) <==> HasDot(line)
    ensures DottedAll([line]) == [if HasDot(line) then "." + line else line]
  {
    assert LeadingDot([line]) <==> HasDot([line][0]);
  }

  /** Write lines, doubling leading dots, and tell whether there were any. */
  method DotLines(w: EdWriter, lines: seq<Pointer>, ghost slice: seq<Line>) returns (leadingDot: bool)
    requires w.Valid() && lines == Pointers(slice)
    modifies w
    ensures w.Valid() && w.script == old(w.script) + DottedAll(slice) && leadingDot == LeadingDot(slice)
  {
    hide DottedAll, LeadingDot, Dotted;
    leadingDot := false;
    var i := 0;
    NothingDotted();
    assert slice[..0] == [];
    while i < |lines|
      invariant 0 <= i <= |lines| && w.Valid()
      invariant w.script == old(w.script) + DottedAll(slice[..i]) && leadingDot == LeadingDot(slice[..i])
    {
      var line := lines[i].line;
      assert slice[..i + 1] == slice[..i] + [line];
      DottedJoin(slice[..i], [line]);
      OneDotted(line);
      if line != [] && line[0] == '.' {
        leadingDot := true;
        w.PutLine("." + line);
      } else {
        w.PutLine(line);
      }
      i := i + 1;
    }
    assert slice[..i] == slice;
  }

  /** End the text, and remove the doubled dots again. */
  method UndotLines(w: EdWriter, leadingDot: bool, start: nat, num: nat)
    requires w.Valid() && 1 <= start
    modifies w
    ensures w.Valid() && w.script == old(w.script) + UndotScript(leadingDot, start, num)
  {
    w.PutLine(".\n");
    if leadingDot {
      if num == 1 {
        w.PutLine(Decimal(start) + VerbText(Undot));
      } else {
        w.PutLine(Decimal(start) + "," + Decimal(start + num - 1) + VerbText(Undot));
      }
    }
  }

  /** Write out a delete, or an add or change. */
  method PutChange(w: EdWriter, b: Diff3Block, ghost f: seq<File>)
    requires w.Valid() && Okay3(b, f)
    modifies w
    ensures w.Valid() && InRange(b, f) && 1 <= b.low[0]
    ensures w.script == old(w.script) + ChangeScript(b.low[0], Mine(b, f), Yours(b, f))
  {
    SizesAre(b, f);
    hide *;
    var low, high := b.low[MAPPING[FILE0]], b.high[MAPPING[FILE0]];
    if b.Num(MAPPING[FILE2]) == 0 {
      PutDelete(w, low, high, Mine(b, f), Yours(b, f));
    } else {
      PutText(w, low, high, b.lines[MAPPING[FILE2]], b.Num(MAPPING[FILE2]), Mine(b, f), Yours(b, f));
    }
  }

  method PutDelete(w: EdWriter, low: nat, high: int, ghost mine: seq<Line>, ghost yours: seq<Line>)
    requires w.Valid() && 1 <= low <= high + 1 && high == low + |mine| - 1 && yours == []
    modifies w
    ensures w.Valid() && w.script == old(w.script) + ChangeScript(low, mine, yours)
  {
    hide CommandLine, EdWriter.Valid, Flat;
    if high - low + 1 == 1 {
      w.PutCommand(low, low, Delete);
    } else {
      w.PutCommand(low, high, Delete);
    }
  }

  method PutText(w: EdWriter, low: nat, high: int, lines: seq<Pointer>, num: nat, ghost mine: seq<Line>, ghost yours: seq<Line>)
    requires w.Valid() && 1 <= low <= high + 1 && high == low + |mine| - 1 && yours != [] && num == |yours| && lines == Pointers(yours)
    modifies w
    ensures w.Valid() && w.script == old(w.script) + ChangeScript(low, mine, yours)
  {
    hide *;
    ghost var start := w.script;
    PutChangeCommand(w, low, high, mine);
    ChangeParts(start, low, mine, yours);
    var leadingDot := DotLines(w, lines, yours);
    UndotLines(w, leadingDot, low, num);
  }

  method PutChangeCommand(w: EdWriter, low: nat, high: nat, ghost mine: seq<Line>)
    requires w.Valid() && 1 <= low && high == low + |mine| - 1
    modifies w
    ensures w.Valid()
    ensures w.script == old(w.script) + [if mine == [] then CommandLine(low - 1, low - 1, Add) else CommandLine(low, low + |mine| - 1, Change)]
  {
    hide CommandLine;
    if high - low + 1 == 0 {
      w.PutCommand(high, high, Add);
    } else if high - low + 1 == 1 {
      w.PutCommand(high, high, Change);
    } else {
      w.PutCommand(low, high, Change);
    }
  }

  lemma ChangeParts(start: seq<Line>, low: nat, mine: seq<Line>, yours: seq<Line>)
    requires 1 <= low
    ensures yours != [] ==>
              start + ChangeScript(low, mine, yours)
              == start + [if mine == [] then CommandLine(low - 1, low - 1, Add) else CommandLine(low, low + |mine| - 1, Change)]
                 + DottedAll(yours) + UndotScript(LeadingDot(yours), low, |yours|)
  {
    hide CommandLine, DottedAll, UndotScript, LeadingDot;
  }

  lemma SizesAre(b: Diff3Block, f: seq<File>)
    requires Okay3(b, f)
    ensures InRange(b, f) && |b.lines| == 3 && |b.low| == 3 && |b.high| == 3
    ensures b.Num(MAPPING[FILE0]) == |Mine(b, f)| && b.Num(MAPPING[FILE1]) == |Older(b, f)| && b.Num(MAPPING[FILE2]) == |Yours(b, f)|
    ensures 1 <= b.low[0] && b.high[0] == b.low[0] + |Mine(b, f)| - 1
    ensures b.lines[MAPPING[FILE1]] == Pointers(Older(b, f)) && b.lines[MAPPING[FILE2]] == Pointers(Yours(b, f))
  {
    Merger.SidesAre(b, f);
  }

  /** What comes after MYFILE's lines in a conflict. */
  method PutAfter(w: EdWriter, b: Diff3Block, o: Options, ghost f: seq<File>)
    requires w.Valid() && Okay3(b, f)
    modifies w
    ensures w.Valid() && InRange(b, f) && 0 <= b.high[0]
    ensures w.script == old(w.script) + AfterScript(TypeOf(b).DIFF_ALL?, b.high[0], Older(b, f), Yours(b, f), o)
  {
    SizesAre(b, f);
    hide *;
    var high, num := b.high[MAPPING[FILE0]], b.Num(MAPPING[FILE1]) + b.Num(MAPPING[FILE2]) + 1;
    PutAfterLines(w, b, o, high, num, Older(b, f), Yours(b, f));
  }

  method PutAfterLines(w: EdWriter, b: Diff3Block, o: Options, high: nat, num: nat, ghost older: seq<Line>, ghost yours: seq<Line>)
    requires w.Valid() && |b.lines| == 3 && num == |older| + |yours| + 1
    requires b.lines[MAPPING[FILE1]] == Pointers(older) && b.lines[MAPPING[FILE2]] == Pointers(yours)
    modifies w
    ensures w.Valid() && w.script == old(w.script) + AfterScript(TypeOf(b).DIFF_ALL?, high, older, yours, o)
  {
    hide *;
    ghost var start, all := w.script, TypeOf(b).DIFF_ALL?;
    w.PutCommand(high, high, Add);
    var leadingDot := PutAfterMine(w, b, o, older, yours);
    UndotLines(w, leadingDot, high + 2, num);
    AfterParts(start, all, high, older, yours, o);
  }

  lemma AfterParts(start: seq<Line>, all: bool, high: nat, older: seq<Line>, yours: seq<Line>, o: Options)
    ensures start + AfterScript(all, high, older, yours, o)
            == start + [CommandLine(high, high, Add)] + AfterMine(all, older, yours, o)
               + UndotScript(DotsAfter(all, older, yours, o), high + 2, |older| + |yours| + 1)
  {
    hide CommandLine, UndotScript, AfterMine, DotsAfter;
  }

  method PutAfterMine(w: EdWriter, b: Diff3Block, o: Options, ghost older: seq<Line>, ghost yours: seq<Line>) returns (leadingDot: bool)
    requires w.Valid() && |b.lines| == 3
    requires b.lines[MAPPING[FILE1]] == Pointers(older) && b.lines[MAPPING[FILE2]] == Pointers(yours)
    modifies w
    ensures w.Valid() && w.script == old(w.script) + AfterMine(TypeOf(b).DIFF_ALL?, older, yours, o)
    ensures leadingDot == DotsAfter(TypeOf(b).DIFF_ALL?, older, yours, o)
  {
    hide Pointers, DottedAll, LeadingDot, TypeOf, Label, Flat, EdWriter.Valid;
    ghost var start, text: seq<Line> := w.script, [];
    leadingDot := false;
    if TypeOf(b) == DIFF_ALL {
      if o.show2nd {
        w.PutLine(Label("|||||||", o.name1));
        leadingDot := DotLines(w, b.lines[MAPPING[FILE1]], older);
        text := [Label("|||||||", o.name1)] + DottedAll(older);
      }
      assert w.script == start + text;
      w.PutLine(BAR);
      var dots := DotLines(w, b.lines[MAPPING[FILE2]], yours);
      leadingDot := leadingDot || dots;
      text := text + [BAR] + DottedAll(yours);
    }
    assert w.script == start + text;
    w.PutLine(Label(">>>>>>>", o.name2));
    assert text + [Label(">>>>>>>", o.name2)] == AfterMine(TypeOf(b).DIFF_ALL?, older, yours, o);
  }

  /** What comes before MYFILE's lines in a conflict. */
  method PutBefore(w: EdWriter, b: Diff3Block, o: Options, ghost f: seq<File>)
    requires w.Valid() && Okay3(b, f)
    modifies w
    ensures w.Valid() && InRange(b, f) && 1 <= b.low[0]
    ensures w.script == old(w.script) + BeforeScript(TypeOf(b).DIFF_ALL?, b.low[0], Older(b, f), o)
  {
    SizesAre(b, f);
    hide *;
    var low := b.low[MAPPING[FILE0]];
    ghost var start, older, all := w.script, Older(b, f), TypeOf(b) == DIFF_ALL;
    w.PutCommand(low - 1, low - 1, Add);
    w.PutLine(Label("<<<<<<<", if TypeOf(b) == DIFF_ALL then o.name0 else o.name1));
    var leadingDot := false;
    if TypeOf(b) != DIFF_ALL {
      leadingDot := DotLines(w, b.lines[MAPPING[FILE1]], older);
      w.PutLine(BAR);
    }
    UndotLines(w, leadingDot, low + 1, b.Num(MAPPING[FILE1]));
    BeforeParts(start, all, low, older, o);
  }

  lemma BeforeParts(start: seq<Line>, all: bool, low: nat, older: seq<Line>, o: Options)
    requires 1 <= low
    ensures var begin := start + [CommandLine(low - 1, low - 1, Add)] + [Label("<<<<<<<", if all then o.name0 else o.name1)];
            start + BeforeScript(all, low, older, o)
            == (if all then begin else begin + DottedAll(older) + [BAR]) + UndotScript(!all && LeadingDot(older), low + 1, |older|)
  {
    hide CommandLine, UndotScript, DottedAll, LeadingDot, Label;
  }

  /** Write out a conflict. */
  method PutConflict(w: EdWriter, b: Diff3Block, o: Options, ghost f: seq<File>)
    requires w.Valid() && Okay3(b, f)
    modifies w
    ensures w.Valid() && InRange(b, f) && 1 <= b.low[0] <= b.high[0] + 1
    ensures w.script == old(w.script) + ConflictScript(TypeOf(b).DIFF_ALL?, b.low[0], b.high[0], Older(b, f), Yours(b, f), o)
  {
    SizesAre(b, f);
    hide *;
    ghost var start := w.script;
    PutAfter(w, b, o, f);
    PutBefore(w, b, o, f);
    ConflictParts(start, TypeOf(b).DIFF_ALL?, b.low[0], b.high[0], Older(b, f), Yours(b, f), o);
  }

  lemma ConflictParts(start: seq<Line>, all: bool, low: nat, high: nat, older: seq<Line>, yours: seq<Line>, o: Options)
    requires 1 <= low
    ensures start + ConflictScript(all, low, high, older, yours, o)
            == (start + AfterScript(all, high, older, yours, o)) + BeforeScript(all, low, older, o)
  {
    hide AfterScript, BeforeScript;
  }

  /** The whole w.script, and whether it marks conflicts. */
  method OutputDiff3EdScript(w: EdWriter, bs: seq<Diff3Block>, o: Options, ghost f: seq<File>) returns (conflictsFound: bool)
    requires w.Valid() && w.script == [] && forall i :: 0 <= i < |bs| ==> Okay3(bs[i], f)
    requires AllInRange(bs, f)
    modifies w
    ensures w.output == Flat(WholeScript(bs, f, o) + Closing(o))
    ensures conflictsFound <==> HasMarked(bs, o)
  {
    hide *;
    conflictsFound := false;
    var list := ReverseDiff3Blocklist(bs);
    var n := 0;
    NoneYet(bs, f, o);
    while n < |list|
      invariant 0 <= n <= |list| && w.Valid() && AllInRange(bs[|bs| - n..], f) && w.script == WholeScript(bs[|bs| - n..], f, o)
      invariant conflictsFound <==> HasMarked(bs[|bs| - n..], o)
    {
      var b, k := list[n], |bs| - n - 1;
      OneMoreBlock(bs, f, o, k);
      if !Skipped(b, o) {
        if EdConflict(b, o) {
          conflictsFound := true;
          PutConflict(w, b, o, f);
        } else {
          PutChange(w, b, f);
        }
      }
      n := n + 1;
    }
    assert bs[|bs| - n..] == bs;
    Close(w, o);
    w.ValidMeans();
  }

  /** Write and quit, if asked to. */
  method Close(w: EdWriter, o: Options)
    requires w.Valid()
    modifies w
    ensures w.Valid() && w.script == old(w.script) + Closing(o)
  {
    hide Flat, EdWriter.Valid;
    if o.finalWrite {
      w.PutLine("w\n");
      w.PutLine("q\n");
    }
  }

  lemma NoneYet(bs: seq<Diff3Block>, f: seq<File>, o: Options)
    ensures AllInRange(bs[|bs|..], f) && WholeScript(bs[|bs|..], f, o) == [] && !HasMarked(bs[|bs|..], o)
  {
  }

  lemma OneMoreBlock(bs: seq<Diff3Block>, f: seq<File>, o: Options, k: nat)
    requires k < |bs| && Okay3(bs[k], f) && AllInRange(bs, f)
    ensures InRange(bs[k], f) && |bs[k].low| == 3 && |bs[k].high| == 3 && 1 <= bs[k].low[0]
    ensures AllInRange(bs[k..], f) && AllInRange(bs[k + 1..], f)
    ensures WholeScript(bs[k..], f, o)
            == WholeScript(bs[k + 1..], f, o)
               + if Skipped(bs[k], o) then []
                 else if EdConflict(bs[k], o) then ConflictScript(TypeOf(bs[k]).DIFF_ALL?, bs[k].low[0], bs[k].high[0], Older(bs[k], f), Yours(bs[k], f), o)
                 else ChangeScript(bs[k].low[0], Mine(bs[k], f), Yours(bs[k], f))
    ensures HasMarked(bs[k..], o) <==> HasMarked(bs[k + 1..], o) || (!Skipped(bs[k], o) && EdConflict(bs[k], o))
  {
    hide Skipped, EdConflict, ConflictScript, ChangeScript, Mine, Older, Yours, RightKind, TypeOf;
    assert bs[k..][0] == bs[k] && bs[k..][1..] == bs[k + 1..];
    if HasMarked(bs[k + 1..], o) {
      var i :| 0 <= i < |bs[k + 1..]| && Marked(bs[k + 1..][i], o);
      assert bs[k..][i + 1] == bs[k + 1..][i];
    }
    if HasMarked(bs[k..], o) && !Marked(bs[k], o) {
      var i :| 0 <= i < |bs[k..]| && Marked(bs[k..][i], o);
      assert bs[k + 1..][i - 1] == bs[k..][i];
    }
    assert Marked(bs[k], o) ==> HasMarked(bs[k..], o);
  }

  // ----- The script does what the merge does

  lemma CommandEnded(lo: nat, hi: nat, verb: Verb)
    ensures AllEnded([CommandLine(lo, hi, verb)])
  {
    hide CommandLine;
    CommandLineIsLine(lo, hi, verb);
    OneEnded(CommandLine(lo, hi, verb));
  }

  lemma DottedEnded(lines: File)
    requires AllEnded(lines)
    ensures AllEnded(DottedAll(lines))
  {
    forall i | 0 <= i < |lines|
      ensures IsLine(Dotted(lines[i])) && Ended(Dotted(lines[i]))
    {
      assert IsLine(lines[i]) && Ended(lines[i]);
      var line := Dotted(lines[i]);
      assert forall k :: 0 <= k < |line| - 1 && HasDot(lines[i]) ==> line[k] == if k == 0 then '.' else lines[i][k - 1];
    }
  }

  lemma UndotEnded(leadingDot: bool, start: nat, num: nat)
    requires 1 <= start
    ensures AllEnded(UndotScript(leadingDot, start, num))
  {
    hide CommandLine;
    OneEnded(DOT);
    CommandEnded(start, start + num - 1, Undot);
  }

  lemma ChangeEnded(low: nat, mine: File, yours: File)
    requires 1 <= low && AllEnded(yours)
    ensures AllEnded(ChangeScript(low, mine, yours))
  {
    hide CommandLine, DottedAll, AllEnded, UndotScript, LeadingDot;
    if yours == [] {
      CommandEnded(low, low + |mine| - 1, Delete);
    } else {
      CommandEnded(low - 1, low - 1, Add);
      if mine != [] {
        CommandEnded(low, low + |mine| - 1, Change);
      }
      DottedEnded(yours);
      UndotEnded(LeadingDot(yours), low, |yours|);
      var command := if mine == [] then CommandLine(low - 1, low - 1, Add) else CommandLine(low, low + |mine| - 1, Change);
      AllEndedJoin([command], DottedAll(yours));
      AllEndedJoin([command] + DottedAll(yours), UndotScript(LeadingDot(yours), low, |yours|));
    }
  }

  lemma LabelsEnded(o: Options)
    requires PlainLabels(o)
    ensures AllEnded([Label("<<<<<<<", o.name0)]) && AllEnded([Label("<<<<<<<", o.name1)])
    ensures AllEnded([Label("|||||||", o.name1)]) && AllEnded([Label(">>>>>>>", o.name2)])
    ensures AllEnded([BAR]) && AllEnded([])
  {
    LabelIsLine("<<<<<<<", o.name0);
    LabelIsLine("<<<<<<<", o.name1);
    LabelIsLine("|||||||", o.name1);
    LabelIsLine(">>>>>>>", o.name2);
    hide Label;
  }

  lemma AfterEnded(all: bool, high: nat, older: File, yours: File, o: Options)
    requires AllEnded(older) && AllEnded(yours) && PlainLabels(o)
    ensures AllEnded(AfterScript(all, high, older, yours, o))
  {
    hide CommandLine, DottedAll, AllEnded, UndotScript, DotsAfter, Label, PlainLabels;
    LabelsEnded(o);
    DottedEnded(older);
    DottedEnded(yours);
    var m := [Label("|||||||", o.name1)];
    AllEndedJoin(m, DottedAll(older));
    var first := if o.show2nd then m + DottedAll(older) else [];
    AllEndedJoin(first, [BAR]);
    AllEndedJoin(first + [BAR], DottedAll(yours));
    AllEndedJoin(if all then first + [BAR] + DottedAll(yours) else [], [Label(">>>>>>>", o.name2)]);
    CommandEnded(high, high, Add);
    var undot := UndotScript(DotsAfter(all, older, yours, o), high + 2, |older| + |yours| + 1);
    UndotEnded(DotsAfter(all, older, yours, o), high + 2, |older| + |yours| + 1);
    AllEndedJoin([CommandLine(high, high, Add)], AfterMine(all, older, yours, o));
    AllEndedJoin([CommandLine(high, high, Add)] + AfterMine(all, older, yours, o), undot);
  }

  lemma BeforeEnded(all: bool, low: nat, older: File, o: Options)
    requires AllEnded(older) && PlainLabels(o) && 1 <= low
    ensures AllEnded(BeforeScript(all, low, older, o))
  {
    hide CommandLine, DottedAll, AllEnded, UndotScript, LeadingDot, Label, PlainLabels;
    LabelsEnded(o);
    DottedEnded(older);
    AllEndedJoin(DottedAll(older), [BAR]);
    AllEndedJoin([Label("<<<<<<<", if all then o.name0 else o.name1)], if all then [] else DottedAll(older) + [BAR]);
    CommandEnded(low - 1, low - 1, Add);
    var undot := UndotScript(!all && LeadingDot(older), low + 1, |older|);
    UndotEnded(!all && LeadingDot(older), low + 1, |older|);
    AllEndedJoin([CommandLine(low - 1, low - 1, Add)], BeforeMine(all, older, o));
    AllEndedJoin([CommandLine(low - 1, low - 1, Add)] + BeforeMine(all, older, o), undot);
  }

  /** The labels that are printed stay on one line. */
  predicate LabelsFit(o: Options) {
    o.flagging || o.show2nd ==> PlainLabels(o)
  }

  lemma BlockEnded(b: Diff3Block, f: seq<File>, o: Options)
    requires InRange(b, f) && AllEnded(f[0]) && AllEnded(f[1]) && AllEnded(f[2]) && LabelsFit(o)
    ensures AllEnded(BlockScript(b, f, o))
  {
    var mine, older, yours := Mine(b, f), Older(b, f), Yours(b, f);
    assert AllEnded(older) && AllEnded(yours);
    assert !Skipped(b, o) && EdConflict(b, o) ==> PlainLabels(o);
    hide AllEnded, Mine, Older, Yours, PlainLabels, AfterScript, BeforeScript, ChangeScript, TypeOf, Skipped, EdConflict;
    ChangeEnded(b.low[0], mine, yours);
    if !Skipped(b, o) && EdConflict(b, o) {
      AfterEnded(TypeOf(b).DIFF_ALL?, b.high[0], older, yours, o);
      BeforeEnded(TypeOf(b).DIFF_ALL?, b.low[0], older, o);
      AllEndedJoin(AfterScript(TypeOf(b).DIFF_ALL?, b.high[0], older, yours, o), BeforeScript(TypeOf(b).DIFF_ALL?, b.low[0], older, o));
    }
    NoneEnded();
  }

  lemma NoneEnded()
    ensures AllEnded([])
  {
  }

  /** The script is made of whole lines, so ed reads the lines that were printed. */
  lemma {:induction false} ScriptEnded(bs: seq<Diff3Block>, f: seq<File>, o: Options)
    requires AllInRange(bs, f) && |f| == 3
    requires AllEnded(f[0]) && AllEnded(f[1]) && AllEnded(f[2]) && LabelsFit(o)
    ensures AllEnded(WholeScript(bs, f, o))
    decreases |bs|
  {
    if bs != [] {
      assert InRange(bs[0], f);
      ScriptEnded(bs[1..], f, o);
      BlockEnded(bs[0], f, o);
      hide AllEnded, BlockScript, LabelsFit, InRange;
      AllEndedJoin(WholeScript(bs[1..], f, o), BlockScript(bs[0], f, o));
    }
  }

  lemma ClosingEnded(o: Options)
    ensures AllEnded(Closing(o))
  {
    assert IsLine("w\n") && Ended("w\n") && IsLine("q\n") && Ended("q\n");
  }

  /** Writing and quitting keep the buffer. */
  lemma EdCloses(o: Options, buf: File)
    ensures Ed.Ed(Closing(o), buf) == Some(buf)
  {
    if o.finalWrite {
      assert Closing(o)[0] == "w\n" && Closing(o)[1..] == ["q\n"];
      assert Parse("w\n") == Some(Write) && Parse("q\n") == Some(Quit);
    }
  }

  /** Ed, run with the script on MYFILE, gives the merged file exactly if all blocks are alike to both. */
  lemma EdGivesMerge(bs: seq<Diff3Block>, f: seq<File>, o: Options)
    requires IsDiff3(bs, f) && AllEnded(f[0]) && AllEnded(f[1]) && AllEnded(f[2]) && LabelsFit(o)
    requires AllInRange(bs, f)
    ensures Ed.Run(Flat(WholeScript(bs, f, o) + Closing(o)), Flat(f[0])) == Some(Merged(bs, f, o, 0)) <==> AllAlike(bs, f, o)
  {
    var script, p := WholeScript(bs, f, o) + Closing(o), [0, 0, 0];
    Merger.RestStart(bs, f);
    hide *;
    hide Ed.Ed;
    ScriptEnded(bs, f, o);
    ClosingEnded(o);
    AllEndedJoin(WholeScript(bs, f, o), Closing(o));
    LinesOfFlat(script);
    LinesOfFlat(f[0]);
    EdRuns(bs, f, o, p, Closing(o));
    EditedOrNot(bs, f, o, p);
    MergedIsLines(bs, f, o, p);
    var r, m := Edited(bs, f, o, 0), MergedLines(bs, f, o, 0);
    if r.Some? {
      assert f[0][..0] + r.value == r.value;
      EdCloses(o, r.value);
    }
    RunOfLines(script, f[0], r);
    VerdictOnText(AllAlike(bs, f, o), o.show2nd, r, m);
  }

  lemma RunOfLines(script: seq<Line>, file: File, r: Option<File>)
    requires Lines(Flat(script)) == script && Lines(Flat(file)) == file && Ed.Ed(script, file) == r
    ensures Ed.Run(Flat(script), Flat(file)) == match r case None => None case Some(lines) => Some(Flat(lines))
  {
    hide Ed.Ed, Lines;
  }

  lemma VerdictOnText(good: bool, show2nd: bool, r: Option<File>, m: File)
    requires Verdict(good, show2nd, r, m)
    ensures good <==> r.Some? && Flat(r.value) == Flat(m)
  {
  }

  /** The ed script for two files that differ from a common one by these threads. */
  method EdScriptFiles(thread0: seq<DiffBlock>, thread1: seq<DiffBlock>, o: Options, ghost f: seq<File>)
    returns (output: Option<string>, conflictsFound: bool, ghost blocks: seq<Diff3Block>)
    requires |f| == 3 && IsThread(thread0, f[0], f[FILEC]) && IsThread(thread1, f[1], f[FILEC])
    requires AllEnded(f[0]) && AllEnded(f[1]) && AllEnded(f[2]) && LabelsFit(o)
    ensures output.Some? && IsDiff3(blocks, f) && (conflictsFound <==> HasMarked(blocks, o))
    ensures AllInRange(blocks, f)
    ensures Ed.Run(output.value, Flat(f[0])) == Some(Merged(blocks, f, o, 0)) <==> AllAlike(blocks, f, o)
    ensures !o.show2nd && !o.flagging ==> Ed.Run(output.value, Flat(f[0])) == Some(Merged(blocks, f, o, 0))
  {
    hide *;
    var bs;
    ghost var used;
    bs, used := Make3Way.Make3WayDiff(thread0, thread1, f);
    if bs.None? {
      return None, false, [];
    }
    blocks := bs.value;
    BlocksOkay(blocks, f);
    var writer := new EdWriter();
    conflictsFound := OutputDiff3EdScript(writer, bs.value, o, f);
    output := Some(writer.output);
    EdGivesMerge(blocks, f, o);
    if !o.show2nd && !o.flagging {
      PlainIsAlike(blocks, f, o);
    }
  }

  lemma BlocksOkay(bs: seq<Diff3Block>, f: seq<File>)
    requires IsDiff3(bs, f)
    ensures AllInRange(bs, f)
    ensures forall i :: 0 <= i < |bs| ==> Okay3(bs[i], f)
  {
    Merger.RestStart(bs, f);
    hide Okay3, Rest, Segment3, Apart3;
    Laws.AllOkay(bs, f, [0, 0, 0]);
    forall i | 0 <= i < |bs|
      ensures InRange(bs[i], f)
    {
      Laws.OkayInRange(bs[i], f);
    }
  }

  // ----- Inputs for which it does not

  /** Three files of one line each, all of it in one block. */
  ghost function OneLineBlock(kind: Kind, f: seq<File>): Diff3Block
    requires |f| == 3
  {
    Diff3Block(kind, [1, 1, 1], [1, 1, 1], [Pointers(f[0]), Pointers(f[1]), Pointers(f[2])])
  }

  lemma OneLineSides(kind: Kind, f: seq<File>)
    requires |f| == 3 && |f[0]| == 1 && |f[1]| == 1 && |f[2]| == 1
    ensures var b := OneLineBlock(kind, f);
            && InRange(b, f) && Slice(b, f, 0) == f[0] && Slice(b, f, 1) == f[1] && Slice(b, f, 2) == f[2]
            && Mine(b, f) == f[0] && Yours(b, f) == f[1] && Older(b, f) == f[2]
  {
    hide Pointers;
  }

  lemma OneLineOkay(kind: Kind, f: seq<File>)
    requires |f| == 3 && |f[0]| == 1 && |f[1]| == 1 && |f[2]| == 1
    requires (kind.DIFF_ALL? && f[0] != f[1]) || (kind.DIFF_3RD? && f[0] == f[1])
    ensures Okay3(OneLineBlock(kind, f), f)
  {
    var b := OneLineBlock(kind, f);
    OneLineSides(kind, f);
    OneLineKind(b, f);
    hide Pointers, RightKind, Slice, InRange;
    LinesAreOkay(b, f);
  }

  lemma LinesAreOkay(b: Diff3Block, f: seq<File>)
    requires InRange(b, f) && RightKind(b, f) && 0 < b.Num(0) + b.Num(1) + b.Num(2)
    requires b.lines[0] == Pointers(Slice(b, f, 0)) && b.lines[1] == Pointers(Slice(b, f, 1)) && b.lines[2] == Pointers(Slice(b, f, 2))
    ensures Okay3(b, f)
  {
    hide Pointers, RightKind, Slice;
  }

  lemma OneLineKind(b: Diff3Block, f: seq<File>)
    requires InRange(b, f) && Slice(b, f, 0) == f[0] && Slice(b, f, 1) == f[1]
    requires (b.kind.DIFF_ALL? && f[0] != f[1]) || (b.kind.DIFF_3RD? && f[0] == f[1])
    ensures RightKind(b, f)
  {
    hide Slice, InRange;
  }

  lemma OneLineDiff(kind: Kind, f: seq<File>)
    requires |f| == 3 && |f[0]| == 1 && |f[1]| == 1 && |f[2]| == 1
    requires (kind.DIFF_ALL? && f[0] != f[1]) || (kind.DIFF_3RD? && f[0] == f[1])
    ensures IsDiff3([OneLineBlock(kind, f)], f) && InRange(OneLineBlock(kind, f), f) && AllInRange([OneLineBlock(kind, f)], f)
  {
    hide *;
    var b := OneLineBlock(kind, f);
    OneLineOkay(kind, f);
    OneLineSides(kind, f);
    OneLineAround(kind, f);
    OneBlockDiff(b, f);
  }

  lemma OneLineAround(kind: Kind, f: seq<File>)
    requires |f| == 3 && |f[0]| == 1 && |f[1]| == 1 && |f[2]| == 1
    ensures var b := OneLineBlock(kind, f); |b.low| == 3 && |b.high| == 3 && Agree(f, [0, 0, 0], Before(b)) && Agree(f, b.high, Lengths(f))
  {
    hide Pointers;
  }

  lemma OneBlockDiff(b: Diff3Block, f: seq<File>)
    requires |f| == 3 && Okay3(b, f) && InRange(b, f) && |b.low| == 3
    requires Agree(f, [0, 0, 0], Before(b)) && Agree(f, b.high, Lengths(f))
    ensures IsDiff3([b], f) && AllInRange([b], f)
  {
    hide Okay3, InRange, Agree;
    assert [b][0] == b && [b][1..] == [];
    assert Segment3([b], f, [0, 0, 0], Lengths(f));
  }

  /** MYFILE, YOURFILE and OLDFILE of one line each. */
  ghost function Three(mine: Line, yours: Line, older: Line): (f: seq<File>)
    ensures |f| == 3 && f[0] == [mine] && f[1] == [yours] && f[2] == [older]
  {
    [[mine], [yours], [older]]
  }

  lemma OneLineEnded(c: char)
    requires c != '\n'
    ensures AllEnded([[c, '\n']])
  {
    var line := [c, '\n'];
    assert IsLine(line) && Ended(line);
  }

  lemma OneBlockIs(kind: Kind, f: seq<File>, o: Options)
    requires |f| == 3 && PlainLabels(o)
    ensures var b := OneLineBlock(kind, f);
            b.kind == kind && |b.high| == 3 && b.high[0] == 1 && (kind.DIFF_3RD? ==> TypeOf(b) == DIFF_2ND)
    ensures LabelsFit(o)
  {
    hide Pointers;
  }

  /** Both sides made the same change, and OLDFILE's lines are to be shown: only the ed script marks it. */
  lemma SameChangeIsMarked(o: Options) returns (bs: seq<Diff3Block>, f: seq<File>)
    requires o.show2nd && PlainLabels(o)
    ensures IsDiff3(bs, f) && AllEnded(f[0]) && AllEnded(f[1]) && AllEnded(f[2]) && AllInRange(bs, f)
    ensures Ed.Run(Flat(WholeScript(bs, f, o) + Closing(o)), Flat(f[0])) != Some(Merged(bs, f, o, 0))
  {
    hide *;
    f := Three(['a', '\n'], ['a', '\n'], ['b', '\n']);
    var b := OneLineBlock(DIFF_3RD, f);
    bs := [b];
    OneBlockIs(DIFF_3RD, f, o);
    assert TypeOf(bs[0]) == DIFF_2ND;
    OneLineEnded('a');
    OneLineEnded('b');
    OneLineDiff(DIFF_3RD, f);
    ShownIsAlike(bs, f, o);
    EdGivesMerge(bs, f, o);
  }

  /** A conflict shown without OLDFILE's lines, with a leading dot in YOURFILE's: the script fails. */
  lemma DotsReachTooFar(o: Options) returns (bs: seq<Diff3Block>, f: seq<File>)
    requires o.flagging && !o.show2nd && !o.simpleOnly && PlainLabels(o)
    ensures IsDiff3(bs, f) && AllEnded(f[0]) && AllEnded(f[1]) && AllEnded(f[2]) && AllInRange(bs, f)
    ensures Ed.Run(Flat(WholeScript(bs, f, o) + Closing(o)), Flat(f[0])) != Some(Merged(bs, f, o, 0))
  {
    hide *;
    f := Three(['a', '\n'], ['.', '\n'], ['b', '\n']);
    OneLineEnded('a');
    OneLineEnded('.');
    OneLineEnded('b');
    DotLine();
    bs := DotsOnThree(o, f);
  }

  lemma DotLine()
    ensures HasDot(['.', '\n'])
  {
  }

  lemma DotsOnThree(o: Options, f: seq<File>) returns (bs: seq<Diff3Block>)
    requires o.flagging && !o.show2nd && !o.simpleOnly && PlainLabels(o)
    requires |f| == 3 && |f[0]| == 1 && |f[1]| == 1 && |f[2]| == 1 && AllEnded(f[0]) && AllEnded(f[1]) && AllEnded(f[2])
    requires f[0][0] != f[1][0] && HasDot(f[1][0])
    ensures IsDiff3(bs, f) && AllInRange(bs, f)
    ensures Ed.Run(Flat(WholeScript(bs, f, o) + Closing(o)), Flat(f[0])) != Some(Merged(bs, f, o, 0))
  {
    hide *;
    var b := OneLineBlock(DIFF_ALL, f);
    bs := [b];
    OneBlockIs(DIFF_ALL, f, o);
    OneLineDiff(DIFF_ALL, f);
    OneLineSides(DIFF_ALL, f);
    NotAlike(b, f, o);
    EdGivesMerge(bs, f, o);
  }

  lemma NotAlike(b: Diff3Block, f: seq<File>, o: Options)
    requires o.flagging && !o.show2nd && !o.simpleOnly && b.kind == DIFF_ALL && |f| == 3
    requires InRange(b, f) && |Yours(b, f)| == 1 && HasDot(Yours(b, f)[0]) && |Older(b, f)| == 1 && |f[0]| == 1 && b.high[0] == 1
    ensures !AllAlike([b], f, o)
  {
    assert [b][0] == b && [b][1..] == [];
    assert LeadingDot(Yours(b, f));
    NoLinesAfter(f, o);
    UnrollBlocks([b], f, o, 0);
    hide AllAlike, MergedLines, Yours, Older, InRange, LeadingDot;
  }

  lemma NoLinesAfter(f: seq<File>, o: Options)
    requires |f| == 3 && |f[0]| == 1
    ensures MergedLines([], f, o, 1) == []
  {
  }
}
