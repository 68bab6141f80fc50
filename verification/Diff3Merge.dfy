/**
 `output_diff3_merge`: stream a merged file.

 Here OLDFILE is the common file, so inside the blocks MYFILE is number 0, YOURFILE
 number 1 and OLDFILE number 2; MAPPING takes argument numbers to these.
 */
module Diff3Merge {
  import opened Text
  import opened Diff3Blocks

  const FILE0 := 0
  const FILE1 := 1
  const FILE2 := 2
  const MAPPING: seq<nat> := [0, 2, 1]
  const REV_MAPPING: seq<nat> := [0, 2, 1]

  datatype Options = Options(overlapOnly: bool, simpleOnly: bool, show2nd: bool, flagging: bool, finalWrite: bool,
                             name0: string, name1: string, name2: string)

  /** The type of a block by the order of the arguments: which of MYFILE, OLDFILE and YOURFILE is different. */
  function TypeOf(b: Diff3Block): Kind {
    match b.kind
    case DIFF_ALL => DIFF_ALL
    case DIFF_1ST => Nth(REV_MAPPING[0])
    case DIFF_2ND => Nth(REV_MAPPING[1])
    case DIFF_3RD => Nth(REV_MAPPING[2])
  }

  function Nth(n: nat): Kind {
    if n == 0 then DIFF_1ST else if n == 1 then DIFF_2ND else DIFF_3RD
  }

  ghost predicate AreText(f: seq<File>) {
    |f| == 3 && IsText(f[0]) && IsText(f[1]) && IsText(f[2])
  }

  // ----- What the merged file is

  /** Blocks that are left as they are in MYFILE. */
  predicate Skipped(b: Diff3Block, o: Options) {
    match TypeOf(b)
    case DIFF_1ST => true
    case DIFF_2ND => !o.show2nd
    case DIFF_3RD => o.overlapOnly
    case DIFF_ALL => o.simpleOnly
  }

  /** Blocks that are reported as conflicts. */
  predicate Conflicting(b: Diff3Block, o: Options) {
    TypeOf(b).DIFF_ALL? && !o.simpleOnly && o.flagging
  }

  /** The lines lack a newline at their end. */
  predicate Unended(lines: seq<Line>) {
    lines != [] && !Ended(lines[|lines| - 1])
  }

  function Newline(wanted: bool): string {
    if wanted then "\n" else ""
  }

  ghost function Mine(b: Diff3Block, f: seq<File>): seq<Line>
    requires InRange(b, f)
  {
    Slice(b, f, MAPPING[FILE0])
  }

  ghost function Older(b: Diff3Block, f: seq<File>): seq<Line>
    requires InRange(b, f)
  {
    Slice(b, f, MAPPING[FILE1])
  }

  ghost function Yours(b: Diff3Block, f: seq<File>): seq<Line>
    requires InRange(b, f)
  {
    Slice(b, f, MAPPING[FILE2])
  }

  /** MYFILE's side of a conflict and, if wanted, OLDFILE's, each on lines of its own. */
  ghost function ConflictHead(mine: seq<Line>, older: seq<Line>, o: Options): string {
    var first := ("<<<<<<< " + o.name0 + "\n") + Flat(mine);
    var sides := if o.show2nd then ((first + Newline(Unended(mine))) + ("||||||| " + o.name1 + "\n")) + Flat(older) else first;
    (sides + Newline(Unended(if o.show2nd then older else mine))) + "=======\n"
  }

  ghost function ConflictTail(yours: seq<Line>, o: Options): string {
    (Newline(Unended(yours)) + (">>>>>>> " + o.name2)) + Newline(!Unended(yours))
  }

  ghost function BlockText(b: Diff3Block, f: seq<File>, o: Options): string
    requires InRange(b, f)
  {
    if Conflicting(b, o) then (ConflictHead(Mine(b, f), Older(b, f), o) + Flat(Yours(b, f))) + ConflictTail(Yours(b, f), o)
    else Flat(Yours(b, f))
  }

  /** MYFILE from a line on, with the blocks merged in. */
  ghost function Merged(bs: seq<Diff3Block>, f: seq<File>, o: Options, pos: int): string
    requires |f| == 3
  {
    if bs == [] then Flat(LinesFrom(f[0], pos))
    else if Skipped(bs[0], o) || !InRange(bs[0], f) then Merged(bs[1..], f, o, pos)
    else Flat(LinesTo(f[0], pos, bs[0].low[0] - 1)) + BlockText(bs[0], f, o) + Merged(bs[1..], f, o, bs[0].high[0])
  }

  ghost function LinesFrom(file: File, pos: int): File {
    if 0 <= pos <= |file| then file[pos..] else []
  }

  ghost function LinesTo(file: File, pos: int, end: int): File {
    if 0 <= pos <= end <= |file| then file[pos..end] else []
  }

  predicate HasConflict(bs: seq<Diff3Block>, o: Options) {
    exists i :: 0 <= i < |bs| && Conflicting(bs[i], o)
  }

  // ----- Lines and blocks

  /** The rest of a three-way diff, after a block that ends at p, or from the beginning. */
  ghost predicate Rest(bs: seq<Diff3Block>, f: seq<File>, p: seq<int>) {
    && |f| == 3 && |p| == 3
    && Segment3(bs, f, p, Lengths(f)) && Apart3(bs)
    && (bs != [] ==> |bs[0].low| == 3 && (p == [0, 0, 0] || p[FILEC] + 1 < bs[0].low[FILEC]))
  }

  lemma RestShape(bs: seq<Diff3Block>, f: seq<File>, p: seq<int>)
    requires Rest(bs, f, p)
    ensures |f| == 3 && |p| == 3
  {
  }

  lemma ApartRest(bs: seq<Diff3Block>)
    requires Apart3(bs) && bs != []
    ensures Apart3(bs[1..])
  {
    var rest := bs[1..];
    forall i, j | 0 <= i < j < |rest| && j == i + 1
      ensures Below(rest[i], rest[j])
    {
      assert rest[i] == bs[i + 1] && rest[j] == bs[j + 1];
    }
  }

  lemma RestNext(bs: seq<Diff3Block>, f: seq<File>, p: seq<int>)
    requires Rest(bs, f, p) && bs != []
    ensures Rest(bs[1..], f, bs[0].high)
    ensures Okay3(bs[0], f) && Agree(f, p, Before(bs[0]))
    ensures |bs[0].low| == 3 && |bs[0].high| == 3 && 0 <= p[0] < bs[0].low[0] <= bs[0].high[0] + 1 <= |f[0]| + 1
  {
    hide Slice, Pointers, RightKind;
    ApartRest(bs);
    if bs[1..] != [] {
      assert bs[1..][0] == bs[1] && Below(bs[0], bs[1]);
    }
  }

  lemma RestIsNext(bs: seq<Diff3Block>, f: seq<File>, p: seq<int>)
    requires Rest(bs, f, p) && bs != []
    ensures Rest(bs[1..], f, bs[0].high) && InRange(bs[0], f) && Okay3(bs[0], f)
  {
    RestNext(bs, f, p);
  }

  /** The line before a block is common to all files and not the last of each. */
  lemma EndedBefore(bs: seq<Diff3Block>, f: seq<File>, p: seq<int>, i: int)
    requires Rest(bs, f, p) && bs != [] && AreText(f) && |bs[0].low| == 3
    requires 0 <= i < bs[0].low[0] - 1 <= |f[0]|
    ensures Ended(f[0][i])
  {
    hide IsLine, Ended, Pointers, Slice, RightKind;
    var b := bs[0];
    RestNext(bs, f, p);
    if i == |f[0]| - 1 {
      assert f[0][i] == f[0][p[0]..b.low[0] - 1][i - p[0]];
      assert f[0][p[0]..b.low[0] - 1] == f[2][p[2]..b.low[2] - 1];
      assert f[0][p[0]..b.low[0] - 1] == f[1][p[1]..b.low[1] - 1];
      assert f[0][i] == f[2][b.low[2] - 2] && f[0][i] == f[1][b.low[1] - 2];
    }
  }

  /** Only the last block can have a line of MYFILE without its newline. */
  lemma EndedInside(bs: seq<Diff3Block>, f: seq<File>, p: seq<int>, i: int)
    requires Rest(bs, f, p) && bs != [] && AreText(f) && |bs[0].high| == 3
    requires 0 <= i < bs[0].high[0] && (i < bs[0].high[0] - 1 || bs[1..] != [])
    ensures i < |f[0]| && Ended(f[0][i])
  {
    hide IsLine, Ended, Pointers, Slice, RightKind;
    RestNext(bs, f, p);
    if bs[1..] != [] {
      RestNext(bs[1..], f, bs[0].high);
      assert bs[1..][0] == bs[1] && Below(bs[0], bs[1]);
    }
  }

  // ----- The streams

  /** `Going` while there is more to do, `Finished` at the end of the input, `Shrank` if that comes too early. */
  datatype Progress = Going | Finished | Shrank

  datatype Outcome = Done(conflictsFound: bool) | InputFileShrank

  class Merger {
    const infile: seq<char>
    var next: nat
    var output: string

    constructor (infile: seq<char>)
      ensures this.infile == infile && next == 0 && output == ""
    {
      this.infile := infile;
      next := 0;
      output := "";
    }

    /** What is left of the input is these lines. */
    ghost predicate At(lines: File)
      reads this
    {
      next <= |infile| && infile[next..] == Flat(lines)
    }

    ghost predicate AtText(text: seq<char>)
      reads this
    {
      next <= |infile| && infile[next..] == text
    }

    /** Copy one line that has its newline. */
    method CopyLine(ghost line: Line, ghost rest: seq<char>) returns (progress: Progress)
      requires AtText(line + rest) && IsLine(line) && Ended(line)
      modifies this
      ensures progress == Going && AtText(rest) && output == old(output) + line
    {
      ghost var k := 0;
      var done := false;
      while !done
        invariant 0 <= k <= |line| && (done <==> k == |line|)
        invariant AtText(line[k..] + rest) && output == old(output) + line[..k]
        decreases |line| - k
      {
        if next == |infile| {
          return Shrank;
        }
        assert infile[next] == (line[k..] + rest)[0] == line[k];
        var c := infile[next];
        next := next + 1;
        output := output + [c];
        done := c == '\n';
        Advance(line, rest, k, infile[next - 1..]);
        k := k + 1;
      }
      return Going;
    }

    static lemma Advance(line: Line, rest: seq<char>, k: nat, input: seq<char>)
      requires k < |line| && input == line[k..] + rest
      ensures input[1..] == line[k + 1..] + rest
      ensures line[..k] + [line[k]] == line[..k + 1]
    {
    }

    /** Skip one line; one without its newline is the end of the input. */
    method SkipLine(ghost line: Line, ghost rest: seq<char>, more: bool) returns (progress: Progress)
      requires AtText(line + rest) && IsLine(line) && (Ended(line) || (rest == [] && !more))
      modifies this
      ensures output == old(output)
      ensures progress == if Ended(line) then Going else Finished
      ensures AtText(rest)
    {
      ghost var k := 0;
      var done := false;
      while !done
        invariant 0 <= k <= |line| && (done <==> k == |line| && Ended(line))
        invariant AtText(line[k..] + rest) && output == old(output)
        decreases |line| - k
      {
        if next == |infile| {
          if more {
            return Shrank;
          }
          return Finished;
        }
        assert k < |line|;
        assert infile[next] == (line[k..] + rest)[0] == line[k];
        var c := infile[next];
        next := next + 1;
        done := c == '\n';
        Advance(line, rest, k, infile[next - 1..]);
        k := k + 1;
      }
      return Going;
    }

    /** Copy so many lines. */
    method CopyLines(count: int, ghost lines: File) returns (progress: Progress)
      requires 0 <= count <= |lines| && At(lines)
      requires forall i :: 0 <= i < count ==> IsLine(lines[i]) && Ended(lines[i])
      modifies this
      ensures progress == Going && At(lines[count..]) && output == old(output) + Flat(lines[..count])
    {
      hide IsLine, Ended;
      var i := count;
      ghost var done := 0;
      assert lines[..0] == [] && lines[0..] == lines;
      while 0 < i
        invariant 0 <= i <= count && done == count - i
        invariant At(lines[done..]) && output == old(output) + Flat(lines[..done])
      {
        i := i - 1;
        FlatStep(lines, done);
        progress := CopyLine(lines[done], Flat(lines[done + 1..]));
        if progress != Going {
          return;
        }
        done := done + 1;
      }
      progress := Going;
    }

    static lemma FlatStep(lines: File, n: nat)
      requires n < |lines|
      ensures Flat(lines[n..]) == lines[n] + Flat(lines[n + 1..])
      ensures Flat(lines[..n + 1]) == Flat(lines[..n]) + lines[n]
    {
      assert lines[n..][0] == lines[n] && lines[n..][1..] == lines[n + 1..];
      assert lines[..n + 1] == lines[..n] + [lines[n]];
      FlatJoin(lines[..n], [lines[n]]);
      assert [lines[n]][1..] == [];
      assert Flat([lines[n]]) == lines[n] + [];
    }

    /** Skip so many lines, of which only the last of the file may lack its newline. */
    method SkipLines(count: int, more: bool, ghost lines: File) returns (progress: Progress)
      requires 0 <= count <= |lines| && At(lines)
      requires forall i :: 0 <= i < count ==> IsLine(lines[i]) && (Ended(lines[i]) || (i == count - 1 && i == |lines| - 1 && !more))
      modifies this
      ensures output == old(output) && progress != Shrank && At(lines[count..])
      ensures progress == Finished ==> !more && count == |lines|
    {
      hide IsLine, Ended;
      var i := count;
      ghost var done := 0;
      assert lines[0..] == lines;
      while 0 < i
        invariant 0 <= i <= count && done == count - i
        invariant At(lines[done..]) && output == old(output)
      {
        i := i - 1;
        FlatStep(lines, done);
        if done == |lines| - 1 {
          assert lines[done + 1..] == [];
        }
        progress := SkipLine(lines[done], Flat(lines[done + 1..]), 0 < i || more);
        done := done + 1;
        if progress != Going {
          return;
        }
      }
      progress := Going;
    }

    /** Write the lines of a block, and tell whether a newline is missing after them. */
    method WriteLines(lines: seq<Pointer>, ghost slice: seq<Line>) returns (outputCr: bool)
      requires lines == Pointers(slice)
      modifies `output
      ensures output == old(output) + Flat(slice) && outputCr == Unended(slice)
    {
      var i := 0;
      assert slice[..0] == [];
      while i < |lines|
        invariant 0 <= i <= |lines| && output == old(output) + Flat(slice[..i])
      {
        FlatStep(slice, i);
        output := output + lines[i].line;
        i := i + 1;
      }
      assert slice[..i] == slice;
      outputCr := i != 0 && (|lines[i - 1].line| == 0 || lines[i - 1].line[|lines[i - 1].line| - 1] != '\n');
    }

    method Write(text: string, ghost start: string, ghost written: string)
      requires output == start + written
      modifies `output
      ensures output == start + (written + text)
    {
      output := output + text;
    }

    method WriteMore(lines: seq<Pointer>, ghost slice: seq<Line>, ghost start: string, ghost written: string) returns (outputCr: bool)
      requires lines == Pointers(slice) && output == start + written
      modifies `output
      ensures output == start + (written + Flat(slice)) && outputCr == Unended(slice)
    {
      outputCr := WriteLines(lines, slice);
    }

    /** The sides of a conflict before YOURFILE's. */
    method WriteHead(b: Diff3Block, o: Options, ghost f: seq<File>)
      requires Okay3(b, f) && TypeOf(b).DIFF_ALL?
      modifies `output
      ensures output == old(output) + ConflictHead(Mine(b, f), Older(b, f), o)
    {
      SidesAre(b, f);
      hide Okay3, Slice, RightKind, Unended, Flat, Pointers, Mine, Older;
      ghost var start := output;
      ghost var mine, older := Mine(b, f), Older(b, f);
      var outputCr := false;
      ghost var text := "<<<<<<< " + o.name0 + "\n";
      output := output + ("<<<<<<< " + o.name0 + "\n");
      outputCr := WriteMore(b.lines[MAPPING[FILE0]], mine, start, text);
      text := text + Flat(mine);
      if o.show2nd {
        Write(Newline(outputCr), start, text);
        text := text + Newline(Unended(mine));
        Write("||||||| " + o.name1 + "\n", start, text);
        text := text + ("||||||| " + o.name1 + "\n");
        outputCr := WriteMore(b.lines[MAPPING[FILE1]], older, start, text);
        text := text + Flat(older);
      }
      Write(Newline(outputCr), start, text);
      text := text + Newline(Unended(if o.show2nd then older else mine));
      Write("=======\n", start, text);
    }

    /** Write YOURFILE's lines of a block, and if it is a conflict all other sides in brackets. */
    method WriteBlock(b: Diff3Block, o: Options, ghost f: seq<File>) returns (conflict: bool)
      requires Okay3(b, f) && !Skipped(b, o)
      modifies `output
      ensures output == old(output) + BlockText(b, f, o) && (conflict <==> Conflicting(b, o))
    {
      SidesAre(b, f);
      conflict := TypeOf(b).DIFF_ALL? && o.flagging;
      hide Okay3, Slice, RightKind, Unended, Flat, Pointers, Mine, Older, Yours, ConflictHead;
      ghost var start, head := output, "";
      if conflict {
        WriteHead(b, o, f);
        head := ConflictHead(Mine(b, f), Older(b, f), o);
      }
      var outputCr := WriteMore(b.lines[MAPPING[FILE2]], Yours(b, f), start, head);
      if conflict {
        WriteTail(outputCr, o, Yours(b, f), start, head + Flat(Yours(b, f)));
      } else {
        assert head + Flat(Yours(b, f)) == Flat(Yours(b, f));
      }
    }

    method WriteTail(outputCr: bool, o: Options, ghost yours: seq<Line>, ghost start: string, ghost written: string)
      requires outputCr == Unended(yours) && output == start + written
      modifies `output
      ensures output == start + (written + ConflictTail(yours, o))
    {
      hide Unended;
      ghost var before := output;
      output := output + Newline(outputCr);
      Write(">>>>>>> " + o.name2, before, Newline(outputCr));
      Write(Newline(!outputCr), before, Newline(outputCr) + (">>>>>>> " + o.name2));
      assert output == (start + written) + ConflictTail(yours, o);
    }

    static lemma SidesAre(b: Diff3Block, f: seq<File>)
      requires Okay3(b, f)
      ensures InRange(b, f) && |b.lines| == 3 && b.lines[MAPPING[FILE0]] == Pointers(Mine(b, f))
      ensures b.lines[MAPPING[FILE1]] == Pointers(Older(b, f)) && b.lines[MAPPING[FILE2]] == Pointers(Yours(b, f))
    {
    }

    /** Copy up to a block, write the block, and skip what it replaces. */
    method MergeBlock(b: Diff3Block, more: bool, o: Options, linesRead: nat, ghost rest: seq<Diff3Block>, ghost f: seq<File>, ghost p: seq<int>)
      returns (progress: Progress, conflict: bool)
      requires AreText(f) && Rest(rest, f, p) && rest != [] && b == rest[0] && (more <==> rest[1..] != [])
      requires !Skipped(b, o) && linesRead <= p[0] && p[0] <= |f[0]| && At(f[0][linesRead..])
      modifies this
      ensures progress != Shrank && (conflict <==> Conflicting(b, o))
      ensures InRange(b, f) && linesRead <= b.low[0] - 1 && At(f[0][b.high[0]..])
      ensures progress == Finished ==> !more && b.high[0] == |f[0]|
      ensures output == old(output) + (Flat(f[0][linesRead..b.low[0] - 1]) + BlockText(b, f, o))
    {
      RestNext(rest, f, p);
      LinesAreEnded(rest, f, p);
      hide *;
      var low, high := b.low[MAPPING[FILE0]] - 1, b.high[MAPPING[FILE0]];
      conflict := false;
      progress := CopyUpTo(linesRead, low, f[0]);
      if progress != Going {
        return;
      }
      conflict := WriteBlock(b, o, f);
      progress := SkipOver(low, high, more, f[0]);
    }

    /** Copy the lines between two lines. */
    method CopyUpTo(from: nat, low: nat, ghost file: File) returns (progress: Progress)
      requires from <= low <= |file| && At(file[from..])
      requires forall i :: 0 <= i < |file| ==> IsLine(file[i])
      requires forall i :: 0 <= i < low ==> Ended(file[i])
      modifies this
      ensures progress == Going && At(file[low..]) && output == old(output) + Flat(file[from..low])
    {
      hide IsLine, Ended, Flat, At;
      SliceTo(file, from, low);
      progress := CopyLines(low - from, file[from..]);
    }

    /** Skip the lines between two lines. */
    method SkipOver(low: nat, high: nat, more: bool, ghost file: File) returns (progress: Progress)
      requires low <= high <= |file| && At(file[low..])
      requires forall i :: 0 <= i < |file| ==> IsLine(file[i])
      requires forall i :: 0 <= i < high && (i < |file| - 1 || more) ==> Ended(file[i])
      modifies this
      ensures output == old(output) && progress != Shrank && At(file[high..])
      ensures progress == Finished ==> !more && high == |file|
    {
      hide IsLine, Ended, Flat, At;
      SliceTo(file, low, high);
      progress := SkipLines(high - low, more, file[low..]);
    }

    static lemma SliceTo(file: File, from: nat, low: nat)
      requires from <= low <= |file|
      ensures file[from..][..low - from] == file[from..low] && file[from..][low - from..] == file[low..]
    {
    }

    /** Which lines of MYFILE are sure to have their newline. */
    static lemma LinesAreEnded(rest: seq<Diff3Block>, f: seq<File>, p: seq<int>)
      requires AreText(f) && Rest(rest, f, p) && rest != []
      ensures InRange(rest[0], f)
      ensures forall i :: 0 <= i < |f[0]| ==> IsLine(f[0][i])
      ensures forall i :: 0 <= i < rest[0].low[0] - 1 ==> Ended(f[0][i])
      ensures forall i :: 0 <= i < rest[0].high[0] && (i < |f[0]| - 1 || rest[1..] != []) ==> Ended(f[0][i])
    {
      RestNext(rest, f, p);
      hide IsLine, Ended, Pointers, Slice, RightKind, Rest;
      forall i | 0 <= i < rest[0].low[0] - 1
        ensures Ended(f[0][i])
      {
        EndedBefore(rest, f, p, i);
      }
      forall i | 0 <= i < rest[0].high[0] && (i < |f[0]| - 1 || rest[1..] != [])
        ensures Ended(f[0][i])
      {
        if rest[1..] != [] {
          EndedInside(rest, f, p, i);
        }
      }
    }

    /** The merged file, and whether conflicts were found; the input is MYFILE. */
    method OutputDiff3Merge(bs: seq<Diff3Block>, o: Options, ghost f: seq<File>) returns (r: Outcome)
      requires IsDiff3(bs, f) && AreText(f)
      requires infile == Flat(f[0]) && next == 0 && output == ""
      modifies this
      ensures r == Done(HasConflict(bs, o)) && output == Merged(bs, f, o, 0)
    {
      hide Segment3, Apart3, AreText, Flat, Skipped, Conflicting, BlockText, Rest, Merged;
      var linesRead, n, conflictsFound := 0, 0, false;
      ghost var p := [0, 0, 0];
      RestStart(bs, f);
      assert f[0][0..] == f[0] && infile[0..] == infile && bs[0..] == bs;
      while n < |bs|
        invariant 0 <= n <= |bs| && Rest(bs[n..], f, p) && |p| == 3 && linesRead <= p[0] <= |f[0]| && 0 <= linesRead
        invariant At(f[0][linesRead..]) && output + Merged(bs[n..], f, o, linesRead) == Merged(bs, f, o, 0)
        invariant conflictsFound <==> HasConflict(bs[..n], o)
      {
        var b := bs[n];
        ghost var before := output;
        ConflictsSoFar(bs, o, n);
        StepMerged(bs, f, o, n, p, linesRead);
        if !Skipped(b, o) {
          var progress, conflict := MergeBlock(b, n + 1 < |bs|, o, linesRead, bs[n..], f, p);
          if conflict {
            conflictsFound := true;
          }
          if progress == Shrank {
            return InputFileShrank;
          }
          if progress == Finished {
            NothingLeft(bs, f, o, n);
            return Done(conflictsFound);
          }
          Regroup(before, Flat(f[0][linesRead..b.low[0] - 1]), BlockText(b, f, o), Merged(bs[n + 1..], f, o, b.high[0]));
          linesRead := b.high[0];
        }
        p := b.high;
        n := n + 1;
      }
      assert bs[..n] == bs && bs[n..] == [];
      CopyRest(bs, o, f, linesRead);
      return Done(conflictsFound);
    }

    /** Copy the rest of the input. */
    method CopyRest(ghost bs: seq<Diff3Block>, ghost o: Options, ghost f: seq<File>, ghost linesRead: int)
      requires |f| == 3 && 0 <= linesRead <= |f[0]| && At(f[0][linesRead..])
      modifies this
      ensures output == old(output) + Merged([], f, o, linesRead)
    {
      ghost var start := next;
      while next < |infile|
        invariant start <= next <= |infile| && output == old(output) + infile[start..next]
      {
        output := output + [infile[next]];
        next := next + 1;
      }
      assert infile[start..next] == infile[start..];
    }

    static lemma Regroup(a: string, b: string, c: string, d: string)
      ensures (a + (b + c)) + d == a + (b + c + d)
    {
    }

    static lemma RestStart(bs: seq<Diff3Block>, f: seq<File>)
      requires IsDiff3(bs, f)
      ensures Rest(bs, f, [0, 0, 0])
    {
      if bs != [] {
        assert Okay3(bs[0], f);
      }
    }

    static lemma ConflictsSoFar(bs: seq<Diff3Block>, o: Options, n: nat)
      requires n < |bs|
      ensures HasConflict(bs[..n + 1], o) <==> HasConflict(bs[..n], o) || Conflicting(bs[n], o)
      ensures Conflicting(bs[n], o) ==> !Skipped(bs[n], o)
    {
      assert bs[..n + 1] == bs[..n] + [bs[n]];
      if HasConflict(bs[..n], o) {
        var i :| 0 <= i < |bs[..n]| && Conflicting(bs[..n][i], o);
        assert bs[..n + 1][i] == bs[..n][i];
      }
      if Conflicting(bs[n], o) {
        assert bs[..n + 1][n] == bs[n];
      }
    }

    static lemma StepMerged(bs: seq<Diff3Block>, f: seq<File>, o: Options, n: nat, p: seq<int>, linesRead: int)
      requires n < |bs| && Rest(bs[n..], f, p) && |p| == 3 && 0 <= linesRead <= p[0]
      ensures InRange(bs[n], f) && linesRead <= bs[n].low[0] - 1
      ensures Rest(bs[n + 1..], f, bs[n].high) && p[0] <= bs[n].high[0]
      ensures bs[n..][0] == bs[n] && bs[n..][1..] == bs[n + 1..]
      ensures Merged(bs[n..], f, o, linesRead) ==
              if Skipped(bs[n], o) then Merged(bs[n + 1..], f, o, linesRead)
              else Flat(f[0][linesRead..bs[n].low[0] - 1]) + BlockText(bs[n], f, o) + Merged(bs[n + 1..], f, o, bs[n].high[0])
    {
      hide Flat, BlockText, Skipped, Slice, Pointers, RightKind, Rest;
      assert bs[n..][0] == bs[n] && bs[n..][1..] == bs[n + 1..];
      RestNext(bs[n..], f, p);
    }

    static lemma NothingLeft(bs: seq<Diff3Block>, f: seq<File>, o: Options, n: nat)
      requires n < |bs| && bs[n + 1..] == [] && |f| == 3 && |bs[n].high| == 3 && bs[n].high[0] == |f[0]|
      ensures n + 1 == |bs| && bs[..n + 1] == bs
      ensures Merged(bs[n + 1..], f, o, bs[n].high[0]) == ""
    {
    }
  }
}
