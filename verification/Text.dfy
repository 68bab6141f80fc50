/**
 Text files as sequences of lines, each line with its newline if it has one.
 */
module Text {
  type Line = seq<char>
  type File = seq<Line>

  ghost function Flat(lines: File): seq<char> {
    if lines == [] then [] else lines[0] + Flat(lines[1..])
  }

  lemma {:induction false} FlatJoin(a: File, b: File)
    ensures Flat(a + b) == Flat(a) + Flat(b)
  {
    if a == [] {
      assert a + b == b;
    } else {
      assert (a + b)[0] == a[0] && (a + b)[1..] == a[1..] + b;
      FlatJoin(a[1..], b);
    }
  }

  /** The line has its newline. */
  predicate Ended(line: Line) {
    line != [] && line[|line| - 1] == '\n'
  }

  ghost predicate IsLine(line: Line) {
    line != [] && forall i :: 0 <= i < |line| - 1 ==> line[i] != '\n'
  }

  /** A file cut into its lines, of which only the last may lack its newline. */
  ghost predicate IsText(file: File) {
    && (forall i :: 0 <= i < |file| ==> IsLine(file[i]))
    && forall i :: 0 <= i < |file| - 1 ==> Ended(file[i])
  }

  /** Every line is one line and has its newline. */
  ghost predicate AllEnded(file: File) {
    forall i :: 0 <= i < |file| ==> IsLine(file[i]) && Ended(file[i])
  }

  lemma AllEndedJoin(a: File, b: File)
    requires AllEnded(a) && AllEnded(b)
    ensures AllEnded(a + b)
  {
    hide IsLine, Ended;
  }

  lemma OneEnded(line: Line)
    requires IsLine(line) && Ended(line)
    ensures AllEnded([line])
  {
    hide IsLine, Ended;
  }

  /** Cut a text after every newline. */
  function Lines(text: seq<char>): File {
    if text == [] then []
    else if text[0] == '\n' then ["\n"] + Lines(text[1..])
    else
      var rest := Lines(text[1..]);
      if rest == [] then [[text[0]]] else [[text[0]] + rest[0]] + rest[1..]
  }

  lemma {:induction false} LinesOfLine(line: Line, rest: seq<char>)
    requires IsLine(line) && Ended(line)
    ensures Lines(line + rest) == [line] + Lines(rest)
    decreases |line|
  {
    assert (line + rest)[1..] == line[1..] + rest;
    if |line| == 1 {
      assert line == "\n";
    } else {
      assert Ended(line[1..]) && IsLine(line[1..]);
      LinesOfLine(line[1..], rest);
      assert [line[0]] + line[1..] == line;
    }
  }

  /** A file of newline-terminated lines is what cutting its text gives. */
  lemma {:induction false} LinesOfFlat(file: File)
    requires AllEnded(file)
    ensures Lines(Flat(file)) == file
  {
    if file != [] {
      assert IsLine(file[0]) && Ended(file[0]);
      hide IsLine, Ended;
      LinesOfLine(file[0], Flat(file[1..]));
      LinesOfFlat(file[1..]);
    }
  }

  lemma {:induction false} LinesOfLast(line: Line)
    requires IsLine(line)
    ensures Lines(line) == [line]
    decreases |line|
  {
    if |line| == 1 {
      assert line[1..] == [] && line == [line[0]];
    } else {
      assert IsLine(line[1..]);
      LinesOfLast(line[1..]);
      assert [line[0]] + line[1..] == line;
    }
  }

  /** Cutting the text of lines gives the lines. */
  lemma {:induction false} LinesOfText(file: File)
    requires IsText(file)
    ensures Lines(Flat(file)) == file
    decreases |file|
  {
    if |file| == 1 {
      LinesOfLast(file[0]);
      assert file[1..] == [] && file == [file[0]];
      assert Flat(file) == file[0] + [] == file[0];
    } else if file != [] {
      assert IsLine(file[0]) && Ended(file[0]);
      hide IsLine, Ended;
      LinesOfLine(file[0], Flat(file[1..]));
      LinesOfText(file[1..]);
    }
  }

  /** Where a line starts in its file, after the lines before it. */
  ghost function StartOf(lines: File, begin: nat, n: nat): nat
    requires n <= |lines|
  {
    begin + |Flat(lines[..n])|
  }

  lemma StartOfNext(lines: File, begin: nat, n: nat)
    requires n < |lines|
    ensures StartOf(lines, begin, n + 1) == StartOf(lines, begin, n) + |lines[n]|
    ensures Flat(lines[n..]) == lines[n] + Flat(lines[n + 1..])
  {
    assert lines[..n + 1] == lines[..n] + [lines[n]];
    FlatJoin(lines[..n], [lines[n]]);
    assert Flat([lines[n]]) == lines[n] + [];
    assert lines[n..][0] == lines[n] && lines[n..][1..] == lines[n + 1..];
  }

  lemma NoMoreText(lines: File, n: nat)
    requires n <= |lines| && AllEnded(lines)
    ensures Flat(lines[n..]) == [] <==> n == |lines|
  {
    if n < |lines| {
      assert lines[n..][0] == lines[n] && IsLine(lines[n]);
    }
  }
}
