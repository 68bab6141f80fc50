/**
 The ed script against the merged file: run on MYFILE, does one give the other?

 The comment on `output_diff3_merge` says so.  It is so exactly when no block has
 OLDFILE alone different while that is to be shown, and when no command that removes
 dots reaches past a conflict to lines that begin with one.
 */
module Diff3EdRun {
  import opened Wrappers
  import opened Text
  import opened Diff3Blocks
  import opened Diff3Merge
  import Ed = EdUtility
  import opened EdUtility
  import opened Diff3EdSpec

  /** Blocks that the ed script marks as conflicts. */
  predicate EdConflict(b: Diff3Block, o: Options) {
    match TypeOf(b)
    case DIFF_2ND => true
    case DIFF_ALL => o.flagging
    case _ => false
  }

  ghost function BlockScript(b: Diff3Block, f: seq<File>, o: Options): seq<Line>
    requires InRange(b, f)
  {
    if Skipped(b, o) then []
    else if EdConflict(b, o) then ConflictScript(TypeOf(b).DIFF_ALL?, b.low[0], b.high[0], Older(b, f), Yours(b, f), o)
    else ChangeScript(b.low[0], Mine(b, f), Yours(b, f))
  }

  /** The ranges of all blocks lie in the files. */
  ghost predicate AllInRange(bs: seq<Diff3Block>, f: seq<File>) {
    forall i :: 0 <= i < |bs| ==> InRange(bs[i], f)
  }

  /** The script for all blocks, last block first. */
  ghost function WholeScript(bs: seq<Diff3Block>, f: seq<File>, o: Options): seq<Line>
    requires AllInRange(bs, f)
  {
    if bs == [] then [] else WholeScript(bs[1..], f, o) + BlockScript(bs[0], f, o)
  }

  // ----- What ed makes of it

  /** MYFILE's lines from a block on, after its script, given what is after the block. */
  ghost function BlockResult(b: Diff3Block, f: seq<File>, o: Options, tail: File): Option<File>
    requires InRange(b, f)
  {
    if Skipped(b, o) then Some(Mine(b, f) + tail)
    else if EdConflict(b, o) then ConflictResult(TypeOf(b).DIFF_ALL?, Mine(b, f), Older(b, f), Yours(b, f), o, tail)
    else Some(Yours(b, f) + tail)
  }

  /** A block's result after the lines before it. */
  ghost function WithGap(b: Diff3Block, f: seq<File>, o: Options, p: int, edited: Option<File>): Option<File>
    requires InRange(b, f)
  {
    match edited
    case None => None
    case Some(tail) =>
      match BlockResult(b, f, o, tail)
      case None => None
      case Some(r) => Some(LinesTo(f[0], p, b.low[0] - 1) + r)
  }

  /** MYFILE's lines after the first p, after the script for the blocks beyond these. */
  ghost function Edited(bs: seq<Diff3Block>, f: seq<File>, o: Options, p: int): Option<File>
    requires |f| == 3 && AllInRange(bs, f)
  {
    if bs == [] then Some(LinesFrom(f[0], p))
    else
      assert InRange(bs[0], f);
      WithGap(bs[0], f, o, p, Edited(bs[1..], f, o, bs[0].high[0]))
  }

  /** Blocks that change MYFILE or YOURFILE are not empty in both. */
  lemma SomethingToChange(b: Diff3Block, f: seq<File>, o: Options)
    requires Okay3(b, f) && !Skipped(b, o) && !EdConflict(b, o)
    ensures Mine(b, f) != [] || Yours(b, f) != []
  {
  }

  lemma BlockEffect(b: Diff3Block, f: seq<File>, o: Options, tail: File, rest: seq<Line>)
    requires Okay3(b, f)
    ensures Ed.Ed(BlockScript(b, f, o) + rest, f[0][..b.high[0]] + tail)
            == match BlockResult(b, f, o, tail) case None => None case Some(r) => Ed.Ed(rest, f[0][..b.low[0] - 1] + r)
  {
    var head, mine := f[0][..b.low[0] - 1], Mine(b, f);
    assert f[0][..b.high[0]] == head + mine;
    hide Ed.Ed, ConflictScript, ConflictResult, ChangeScript, Okay3, RightKind, Older, Yours, Mine, TypeOf;
    if Skipped(b, o) {
      assert [] + rest == rest;
      assert head + mine + tail == head + (mine + tail);
    } else if EdConflict(b, o) {
      assert |head| + 1 == b.low[0] && |head| + |mine| == b.high[0] by {
        assert |head + mine| == b.high[0];
      }
      ConflictEffect(TypeOf(b).DIFF_ALL?, head, mine, Older(b, f), Yours(b, f), o, tail, rest);
    } else {
      SomethingToChange(b, f, o);
      ChangeEffect(head, mine, Yours(b, f), tail, rest);
      assert head + Yours(b, f) + tail == head + (Yours(b, f) + tail);
    }
  }

  /** Running the script for the blocks from some block on leaves all lines before alone. */
  lemma {:induction false} EdRuns(bs: seq<Diff3Block>, f: seq<File>, o: Options, p: seq<int>, rest: seq<Line>)
    requires Rest(bs, f, p) && AllInRange(bs, f)
    ensures 0 <= p[0] <= |f[0]|
    ensures Ed.Ed(WholeScript(bs, f, o) + rest, f[0])
            == match Edited(bs, f, o, p[0]) case None => None case Some(r) => Ed.Ed(rest, f[0][..p[0]] + r)
    decreases |bs|
  {
    if bs == [] {
      assert [] + rest == rest;
      assert f[0][..p[0]] + f[0][p[0]..] == f[0];
      hide *;
    } else {
      RestNext(bs, f, p);
      TailInRange(bs, f);
      var b, more := bs[0], BlockScript(bs[0], f, o) + rest;
      assert WholeScript(bs, f, o) + rest == WholeScript(bs[1..], f, o) + more by {
        hide BlockScript;
      }
      EditedStep(bs, f, o, p[0]);
      hide *;
      EdRuns(bs[1..], f, o, b.high, more);
      RunBlock(b, f, o, p[0], Edited(bs[1..], f, o, b.high[0]), rest);
    }
  }

  /** The block's part of the run, when the later blocks have been dealt with. */
  lemma RunBlock(b: Diff3Block, f: seq<File>, o: Options, p: int, edited: Option<File>, rest: seq<Line>)
    requires Okay3(b, f) && InRange(b, f) && 0 <= p <= b.low[0] - 1
    ensures (match edited case None => None case Some(tail) => Ed.Ed(BlockScript(b, f, o) + rest, f[0][..b.high[0]] + tail))
            == match WithGap(b, f, o, p, edited) case None => None case Some(r) => Ed.Ed(rest, f[0][..p] + r)
  {
    if edited.Some? {
      hide Ed.Ed, BlockScript, BlockResult, Okay3, RightKind;
      BlockEffect(b, f, o, edited.value, rest);
      var result := BlockResult(b, f, o, edited.value);
      if result.Some? {
        GapBefore(f[0], p, b.low[0] - 1, result.value);
      }
    }
  }

  lemma EditedStep(bs: seq<Diff3Block>, f: seq<File>, o: Options, p: int)
    requires |f| == 3 && bs != [] && AllInRange(bs, f) && AllInRange(bs[1..], f) && InRange(bs[0], f)
    ensures Edited(bs, f, o, p) == WithGap(bs[0], f, o, p, Edited(bs[1..], f, o, bs[0].high[0]))
  {
    hide BlockResult, LinesTo, AllInRange;
  }

  lemma GapBefore(file: File, p: int, low: int, r: File)
    requires 0 <= p <= low <= |file|
    ensures file[..p] + (LinesTo(file, p, low) + r) == file[..low] + r
  {
    assert file[..p] + file[p..low] == file[..low];
  }

  lemma TailInRange(bs: seq<Diff3Block>, f: seq<File>)
    requires bs != [] && AllInRange(bs, f)
    ensures InRange(bs[0], f) && AllInRange(bs[1..], f)
  {
    hide InRange;
  }

  // ----- Against the merged file

  /** The lines that the merge has for a block. */
  ghost function MergedBlock(b: Diff3Block, f: seq<File>, o: Options): File
    requires InRange(b, f)
  {
    if Skipped(b, o) then Mine(b, f)
    else if Conflicting(b, o) then ConflictLines(Mine(b, f), Older(b, f), Yours(b, f), o)
    else Yours(b, f)
  }

  /** The lines of the merged file after MYFILE's first p. */
  ghost function MergedLines(bs: seq<Diff3Block>, f: seq<File>, o: Options, p: int): File
    requires |f| == 3 && AllInRange(bs, f)
  {
    if bs == [] then LinesFrom(f[0], p)
    else
      assert InRange(bs[0], f);
      LinesTo(f[0], p, bs[0].low[0] - 1) + (MergedBlock(bs[0], f, o) + MergedLines(bs[1..], f, o, bs[0].high[0]))
  }

  /** The block is treated alike by both, when these are the lines after it. */
  ghost predicate Alike(b: Diff3Block, f: seq<File>, o: Options, tail: File)
    requires InRange(b, f)
  {
    Skipped(b, o) ||
      match TypeOf(b)
      case DIFF_2ND => false
      case DIFF_ALL => o.flagging && !o.show2nd && LeadingDot(Yours(b, f)) ==>
                         var reach := |Older(b, f)|; reach <= |tail| && !LeadingDot(tail[..reach])
      case _ => true
  }

  ghost predicate AllAlike(bs: seq<Diff3Block>, f: seq<File>, o: Options)
    requires |f| == 3 && AllInRange(bs, f)
  {
    bs == [] || (InRange(bs[0], f) && AllAlike(bs[1..], f, o) && Alike(bs[0], f, o, MergedLines(bs[1..], f, o, bs[0].high[0])))
  }

  ghost function Size(lines: File): nat {
    |Flat(lines)|
  }

  lemma SizeJoin(a: File, b: File)
    ensures Size(a + b) == Size(a) + Size(b)
  {
    FlatJoin(a, b);
  }

  /** Removing dots never makes lines longer, and shorter if there are any. */
  lemma {:induction false} UndotSize(lines: File)
    ensures Size(SubstituteAll(lines, Undot)) <= Size(lines)
    ensures LeadingDot(lines) ==> Size(SubstituteAll(lines, Undot)) < Size(lines)
    ensures !LeadingDot(lines) ==> SubstituteAll(lines, Undot) == lines
    decreases |lines|
  {
    if lines != [] {
      var after := SubstituteAll(lines, Undot);
      UndotSize(lines[1..]);
      assert after[1..] == SubstituteAll(lines[1..], Undot) && after[0] == Substituted(lines[0], Undot);
      if LeadingDot(lines[1..]) {
        var i :| 0 <= i < |lines[1..]| && HasDot(lines[1..][i]);
        assert HasDot(lines[i + 1]);
      }
      if LeadingDot(lines) {
        var i :| 0 <= i < |lines| && HasDot(lines[i]);
        assert i > 0 ==> HasDot(lines[1..][i - 1]);
      } else {
        assert !HasDot(lines[0]);
      }
    }
  }

  /** The lines of a conflict. */
  ghost function ConflictLines(mine: seq<Line>, older: seq<Line>, yours: seq<Line>, o: Options): File {
    [Label("<<<<<<<", o.name0)] + mine + (if o.show2nd then [Label("|||||||", o.name1)] + older else [])
    + [BAR] + yours + [Label(">>>>>>>", o.name2)]
  }

  /** What the ed script makes of a conflict, but for the lines after it. */
  lemma ConflictAlike(mine: seq<Line>, older: seq<Line>, yours: seq<Line>, o: Options, tail: File)
    ensures ConflictResult(true, mine, older, yours, o, tail)
            == if o.show2nd || !LeadingDot(yours) then Some(ConflictLines(mine, older, yours, o) + tail)
               else if |older| > |tail| then None
               else Some(ConflictLines(mine, older, yours, o) + (SubstituteAll(tail[..|older|], Undot) + tail[|older|..]))
  {
    hide Label, LeadingDot, SubstituteAll, ConflictLines, BeforeResult;
    var before := BeforeResult(true, older, o) + mine;
    if o.show2nd {
      ShownLines(mine, older, yours, o, tail);
    } else {
      var after := if !LeadingDot(yours) || |older| > |tail| then tail
                   else SubstituteAll(tail[..|older|], Undot) + tail[|older|..];
      HiddenLines(mine, older, yours, o, after);
    }
  }

  lemma ShownLines(mine: seq<Line>, older: seq<Line>, yours: seq<Line>, o: Options, tail: File)
    requires o.show2nd
    ensures BeforeResult(true, older, o) + mine + ([Label("|||||||", o.name1)] + older + [BAR] + yours + [Label(">>>>>>>", o.name2)] + tail)
            == ConflictLines(mine, older, yours, o) + tail
  {
    hide Label;
    var a, m, z := [Label("<<<<<<<", o.name0)], [Label("|||||||", o.name1)], [Label(">>>>>>>", o.name2)];
    assert BeforeResult(true, older, o) == a;
    SevenParts(a, mine, m, older, yours, z, tail);
  }

  lemma SevenParts(a: File, mine: File, m: File, older: File, yours: File, z: File, tail: File)
    ensures a + mine + (m + older + [BAR] + yours + z + tail) == (a + mine + (m + older) + [BAR] + yours + z) + tail
  {
  }

  lemma HiddenLines(mine: seq<Line>, older: seq<Line>, yours: seq<Line>, o: Options, after: File)
    requires !o.show2nd
    ensures BeforeResult(true, older, o) + mine + ([BAR] + yours + [Label(">>>>>>>", o.name2)] + after)
            == ConflictLines(mine, older, yours, o) + after
  {
    hide Label;
    var a, z := [Label("<<<<<<<", o.name0)], [Label(">>>>>>>", o.name2)];
    assert BeforeResult(true, older, o) == a;
    assert a + mine + ([BAR] + yours + z + after) == (a + mine + [] + [BAR] + yours + z) + after;
  }

  /** One block: exactly if it is alike do ed and the merge agree on it, and if not, the sizes differ. */
  lemma AlikeBlock(b: Diff3Block, f: seq<File>, o: Options, tail: File)
    requires Okay3(b, f)
    ensures InRange(b, f)
    ensures Verdict(Alike(b, f, o, tail), o.show2nd, BlockResult(b, f, o, tail), MergedBlock(b, f, o) + tail)
  {
    assert TypeOf(b) == DIFF_2ND ==> Mine(b, f) == Yours(b, f);
    hide Okay3, RightKind, Label, LeadingDot, Mine, Older, Yours, Size, ConflictResult, ConflictLines;
    var mine, older, yours := Mine(b, f), Older(b, f), Yours(b, f);
    if !Skipped(b, o) && TypeOf(b).DIFF_2ND? {
      OlderShown(mine, older, o, tail);
    } else if Conflicting(b, o) {
      ConflictAlike(mine, older, yours, o, tail);
      if |older| <= |tail| {
        var lines := ConflictLines(mine, older, yours, o);
        UndotPart(lines, tail, |older|);
      }
    }
  }

  lemma UndotPart(lines: File, tail: File, reach: nat)
    requires reach <= |tail|
    ensures var after := lines + (SubstituteAll(tail[..reach], Undot) + tail[reach..]);
            if LeadingDot(tail[..reach]) then Size(after) < Size(lines + tail) else after == lines + tail
  {
    hide LeadingDot, Size, SubstituteAll;
    UndotSize(tail[..reach]);
    var few := SubstituteAll(tail[..reach], Undot);
    assert tail[..reach] + tail[reach..] == tail;
    SizeJoin(tail[..reach], tail[reach..]);
    SizeJoin(few, tail[reach..]);
    SizeJoin(lines, tail);
    SizeJoin(lines, few + tail[reach..]);
  }

  lemma OlderShown(mine: seq<Line>, older: seq<Line>, o: Options, tail: File)
    ensures var r := ConflictResult(false, mine, older, mine, o, tail); r.Some? && Size(r.value) > Size(mine + tail)
  {
    var a, z := Label("<<<<<<<", o.name1), Label(">>>>>>>", o.name2);
    hide Label, Size;
    var r := ConflictResult(false, mine, older, mine, o, tail).value;
    assert r == [a] + ((older + [BAR]) + (mine + ([z] + tail)));
    SizeJoin([a], (older + [BAR]) + (mine + ([z] + tail)));
    SizeJoin(older + [BAR], mine + ([z] + tail));
    SizeJoin(mine, [z] + tail);
    SizeJoin([z], tail);
    SizeJoin(mine, tail);
    assert Size([a]) > 0 by {
      assert [a][0] == Label("<<<<<<<", o.name1);
      LabelSize("<<<<<<<", o.name1);
    }
  }

  lemma LabelSize(marker: string, name: string)
    ensures Size([Label(marker, name)]) > 0
  {
    assert Label(marker, name) != [];
    assert Flat([Label(marker, name)]) == Label(marker, name) + [];
  }

  /** The result is the expected one if all is well, and otherwise of another size, or an error. */
  ghost predicate Verdict(good: bool, show2nd: bool, r: Option<File>, m: File) {
    if good then r == Some(m)
    else if show2nd then r.Some? && Size(r.value) > Size(m)
    else r.Some? ==> Size(r.value) < Size(m)
  }

  lemma VerdictStep(gap: File, block: File, tail: File, m: File, r: Option<File>, restGood: bool, blockGood: bool, show2nd: bool)
    requires Verdict(restGood, show2nd, Some(tail), m) && Verdict(blockGood, show2nd, r, block + tail)
    ensures Verdict(restGood && blockGood, show2nd, if r.Some? then Some(gap + r.value) else None, gap + (block + m))
    ensures !restGood ==> Verdict(false, show2nd, if r.Some? then Some(gap + r.value) else None, gap + (block + m))
  {
    hide Size;
    SizeJoin(gap, block + m);
    SizeJoin(block, tail);
    SizeJoin(block, m);
    if r.Some? {
      SizeJoin(gap, r.value);
    }
  }

  lemma UnrollBlocks(bs: seq<Diff3Block>, f: seq<File>, o: Options, p: int)
    requires |f| == 3 && bs != [] && AllInRange(bs, f)
    ensures InRange(bs[0], f)
    ensures var b, more := bs[0], bs[1..];
            var m, gap := MergedLines(more, f, o, b.high[0]), LinesTo(f[0], p, b.low[0] - 1);
            && MergedLines(bs, f, o, p) == gap + (MergedBlock(b, f, o) + m)
            && AllAlike(bs, f, o) == (AllAlike(more, f, o) && Alike(b, f, o, m))
            && Edited(bs, f, o, p) == WithGap(b, f, o, p, Edited(more, f, o, b.high[0]))
  {
    hide WithGap, MergedBlock, Alike, LinesTo;
  }

  /** All blocks: ed makes the merged lines exactly if all are alike. */
  lemma {:induction false} EditedOrNot(bs: seq<Diff3Block>, f: seq<File>, o: Options, p: seq<int>)
    requires Rest(bs, f, p) && AllInRange(bs, f)
    ensures Verdict(AllAlike(bs, f, o), o.show2nd, Edited(bs, f, o, p[0]), MergedLines(bs, f, o, p[0]))
    decreases |bs|
  {
    assert |p| == 3;
    if bs != [] {
      hide *;
      RestIsNext(bs, f, p);
      TailInRange(bs, f);
      EditedOrNot(bs[1..], f, o, bs[0].high);
      JudgeRest(bs, f, o, p[0]);
    }
  }

  lemma JudgeRest(bs: seq<Diff3Block>, f: seq<File>, o: Options, p: int)
    requires bs != [] && AllInRange(bs, f) && AllInRange(bs[1..], f) && InRange(bs[0], f) && Okay3(bs[0], f)
    requires Verdict(AllAlike(bs[1..], f, o), o.show2nd, Edited(bs[1..], f, o, bs[0].high[0]), MergedLines(bs[1..], f, o, bs[0].high[0]))
    ensures Verdict(AllAlike(bs, f, o), o.show2nd, Edited(bs, f, o, p), MergedLines(bs, f, o, p))
  {
    var b := bs[0];
    assert |f| == 3 && |b.low| == 3 && |b.high| == 3;
    hide *;
    JudgeBlock(b, f, o, p, Edited(bs[1..], f, o, b.high[0]), MergedLines(bs[1..], f, o, b.high[0]), AllAlike(bs[1..], f, o));
    UnrollBlocks(bs, f, o, p);
  }

  lemma JudgeBlock(b: Diff3Block, f: seq<File>, o: Options, p: int, r: Option<File>, m: File, good: bool)
    requires Okay3(b, f) && Verdict(good, o.show2nd, r, m)
    ensures InRange(b, f)
    ensures var gap := LinesTo(f[0], p, b.low[0] - 1);
            Verdict(good && Alike(b, f, o, m), o.show2nd, WithGap(b, f, o, p, r), gap + (MergedBlock(b, f, o) + m))
  {
    hide RightKind, BlockResult, MergedBlock, Alike, Size, LinesTo;
    match r
    case None =>
    case Some(tail) =>
      AlikeBlock(b, f, o, tail);
      VerdictStep(LinesTo(f[0], p, b.low[0] - 1), MergedBlock(b, f, o), tail, m, BlockResult(b, f, o, tail),
                  good, Alike(b, f, o, tail), o.show2nd);
  }

  /** With neither OLDFILE's lines nor marks to be shown, ed always makes the merged file. */
  lemma {:induction false} PlainIsAlike(bs: seq<Diff3Block>, f: seq<File>, o: Options)
    requires |f| == 3 && AllInRange(bs, f) && !o.show2nd && !o.flagging
    ensures AllAlike(bs, f, o)
    decreases |bs|
  {
    if bs != [] {
      assert InRange(bs[0], f);
      PlainIsAlike(bs[1..], f, o);
    }
  }

  /** With OLDFILE's lines to be shown, it does unless MYFILE and YOURFILE changed alike somewhere. */
  lemma {:induction false} ShownIsAlike(bs: seq<Diff3Block>, f: seq<File>, o: Options)
    requires |f| == 3 && AllInRange(bs, f) && o.show2nd
    ensures AllAlike(bs, f, o) <==> forall i :: 0 <= i < |bs| ==> TypeOf(bs[i]) != DIFF_2ND
    decreases |bs|
  {
    if bs != [] {
      var b, more := bs[0], bs[1..];
      assert InRange(b, f);
      ShownIsAlike(more, f, o);
      assert Alike(b, f, o, MergedLines(more, f, o, b.high[0])) <==> TypeOf(b) != DIFF_2ND;
      hide AllAlike, Alike, TypeOf, InRange, MergedLines;
      assert forall i :: 0 < i < |bs| ==> bs[i] == more[i - 1];
      assert forall i :: 0 <= i < |more| ==> more[i] == bs[i + 1];
      assert AllAlike(bs, f, o) <==> AllAlike(more, f, o) && TypeOf(b) != DIFF_2ND by {
        UnrollBlocks(bs, f, o, 0);
      }
    }
  }

  // ----- The merged file as lines

  lemma SlicesEnded(b: Diff3Block, f: seq<File>)
    requires InRange(b, f) && AllEnded(f[0]) && AllEnded(f[1]) && AllEnded(f[2])
    ensures !Unended(Mine(b, f)) && !Unended(Older(b, f)) && !Unended(Yours(b, f))
  {
  }

  lemma BlockLinesFlat(b: Diff3Block, f: seq<File>, o: Options)
    requires InRange(b, f) && AllEnded(f[0]) && AllEnded(f[1]) && AllEnded(f[2])
    ensures !Skipped(b, o) ==> BlockText(b, f, o) == Flat(MergedBlock(b, f, o))
  {
    SlicesEnded(b, f);
    hide TypeOf, Mine, Older, Yours, Unended;
    if Conflicting(b, o) {
      ConflictFlat(Mine(b, f), Older(b, f), Yours(b, f), o);
    }
  }

  lemma FlatOne(line: Line, more: File)
    ensures Flat([line] + more) == line + Flat(more)
  {
    assert ([line] + more)[1..] == more;
  }

  lemma ConflictFlat(mine: seq<Line>, older: seq<Line>, yours: seq<Line>, o: Options)
    requires !Unended(mine) && !Unended(older) && !Unended(yours)
    ensures ConflictHead(mine, older, o) + Flat(yours) + ConflictTail(yours, o) == Flat(ConflictLines(mine, older, yours, o))
  {
    hide Flat, Unended, Label, ConflictHead, ConflictTail;
    var a, m, z := Label("<<<<<<<", o.name0), Label("|||||||", o.name1), Label(">>>>>>>", o.name2);
    var rest := [BAR] + (yours + [z]);
    ConflictParts(mine, older, yours, o);
    TailFlat(yours, z);
    if o.show2nd {
      assert ConflictLines(mine, older, yours, o) == [a] + (mine + ([m] + (older + rest)));
      FlatOne(a, mine + ([m] + (older + rest)));
      FlatJoin(mine, [m] + (older + rest));
      FlatOne(m, older + rest);
      FlatJoin(older, rest);
      Reassociate(a + Flat(mine), m + Flat(older), BAR, Flat(yours), z);
      Reassociate(a, Flat(mine), m, Flat(older), Flat(rest));
    } else {
      assert ConflictLines(mine, older, yours, o) == [a] + (mine + rest);
      FlatOne(a, mine + rest);
      FlatJoin(mine, rest);
      Reassociate(a, Flat(mine), BAR, Flat(yours), z);
    }
  }

  lemma Reassociate(a: string, b: string, c: string, d: string, e: string)
    ensures (a + b + c) + d + e == a + (b + (c + (d + e)))
    ensures (a + b) + (c + (d + e)) == a + (b + (c + (d + e)))
    ensures (a + b) + ((c + d) + e) == a + (b + (c + (d + e)))
  {
  }

  lemma TailFlat(yours: File, z: Line)
    ensures Flat([BAR] + (yours + [z])) == BAR + (Flat(yours) + z)
  {
    FlatOne(BAR, yours + [z]);
    FlatJoin(yours, [z]);
    FlatOne(z, []);
    assert [z] + [] == [z];
  }

  /** The text written around the sides, if all of them end with newlines. */
  lemma ConflictParts(mine: seq<Line>, older: seq<Line>, yours: seq<Line>, o: Options)
    requires !Unended(mine) && !Unended(older) && !Unended(yours)
    ensures ConflictTail(yours, o) == Label(">>>>>>>", o.name2)
    ensures var a, m := Label("<<<<<<<", o.name0), Label("|||||||", o.name1);
            ConflictHead(mine, older, o) == if o.show2nd then (a + Flat(mine)) + (m + Flat(older)) + BAR else a + Flat(mine) + BAR
  {
    hide Flat, Unended, Label;
    LabelText(o);
    var a, m := Label("<<<<<<<", o.name0), Label("|||||||", o.name1);
    if o.show2nd {
      assert ((((a + Flat(mine)) + "") + m) + Flat(older)) + "" == (a + Flat(mine)) + (m + Flat(older));
    } else {
      assert (a + Flat(mine)) + "" == a + Flat(mine);
    }
  }

  lemma LabelText(o: Options)
    ensures Label("<<<<<<<", o.name0) == "<<<<<<< " + o.name0 + "\n"
    ensures Label("|||||||", o.name1) == "||||||| " + o.name1 + "\n"
    ensures Label(">>>>>>>", o.name2) == (">>>>>>> " + o.name2) + "\n"
  {
    assert "<<<<<<<" + " " == "<<<<<<< " && "|||||||" + " " == "||||||| " && ">>>>>>>" + " " == ">>>>>>> ";
  }
}
