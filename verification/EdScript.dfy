/**
 `print_ed_script`: a two-way edit script as ed commands, last change first.

 Ed takes a line that holds only a dot for the end of the text, so such a line is
 typed as two dots, and one of them is removed before typing goes on.
 */
module EdScript {
  import opened Wrappers
  import opened Text
  import opened Flags
  import opened Script
  import Ed = EdUtility
  import opened EdUtility
  import opened EdWriting
  import opened Analyze
  import opened CodedLines
  import opened Diag

  const DOTS: Line := "..\n"

  // ----- The script

  /** The rest of the text to type once there are `at` lines before it, if already typing or not. */
  ghost function TypeScript(at: nat, lines: seq<Line>, inserting: bool): seq<Line>
    decreases |lines|
  {
    if lines == [] then (if inserting then [DOT] else [])
    else
      (if inserting then [] else [CommandLine(at, at, Add)])
      + if lines[0] == DOT then [DOTS, DOT, CommandLine(at + 1, at + 1, Single)] + TypeScript(at + 1, lines[1..], false)
        else [lines[0]] + TypeScript(at + 1, lines[1..], true)
  }

  ghost function Opening(low: nat, deleted: nat): Line {
    if deleted == 0 then CommandLine(low, low, Add) else CommandLine(low + 1, low + deleted, Verb.Change)
  }

  /** The commands for a change after `low` lines. */
  ghost function HunkScript(low: nat, deleted: nat, inserted: seq<Line>): seq<Line> {
    if inserted == [] then [CommandLine(low + 1, low + deleted, Delete)]
    else [Opening(low, deleted)] + TypeScript(low, inserted, true)
  }

  /** The commands for all changes, the last change first, of files with a common beginning of so many lines. */
  ghost function WholeScript(s: seq<Change>, prefix: nat, b: File): seq<Line>
    requires forall i :: 0 <= i < |s| ==> Placed(s[i], |b|)
  {
    if s == [] then []
    else
      assert Placed(s[0], |b|);
      WholeScript(s[1..], prefix, b) + HunkScript(s[0].line0 + prefix, s[0].deleted, b[s[0].line1..s[0].End1()])
  }

  ghost predicate Placed(c: Change, size: nat) {
    0 <= c.line0 && 0 <= c.deleted && 0 <= c.line1 <= c.End1() <= size && 0 < c.deleted + c.inserted
  }

  // ----- Its effect

  lemma OpeningEffect(head: File, mid: File, tail: File, text: seq<Line>, rest: seq<Line>)
    requires forall i :: 0 <= i < |text| ==> text[i] != DOT
    ensures Ed.Ed([Opening(|head|, |mid|)] + text + [DOT] + rest, head + mid + tail) == Ed.Ed(rest, head + text + tail)
  {
    hide Ed.Ed, CommandLine;
    if mid == [] {
      assert head + mid + tail == head + tail;
      EdAdd(head, tail, text, rest);
    } else {
      EdChange(head, mid, tail, text, rest);
    }
  }

  /** Two dots become one. */
  lemma SingleEffect(head: File, tail: File, rest: seq<Line>)
    ensures Ed.Ed([CommandLine(|head| + 1, |head| + 1, Single)] + rest, head + [DOTS] + tail) == Ed.Ed(rest, head + [DOT] + tail)
  {
    hide Ed.Ed, CommandLine;
    assert Matches([DOTS][0], Single);
    assert Substituted(DOTS, Single) == DOT;
    assert SubstituteAll([DOTS], Single) == [DOT];
    EdSubstitute(head, [DOTS], tail, Single, rest);
  }

  /** While typing: the lines typed so far, and those still to come, take the place of the lines addressed. */
  lemma {:induction false} TypingEffect(head: File, mid: File, text: seq<Line>, lines: seq<Line>, tail: File, rest: seq<Line>)
    requires forall i :: 0 <= i < |text| ==> text[i] != DOT
    ensures Ed.Ed([Opening(|head|, |mid|)] + text + TypeScript(|head| + |text|, lines, true) + rest, head + mid + tail)
            == Ed.Ed(rest, head + text + lines + tail)
    decreases |lines|, 0
  {
    hide Ed.Ed, CommandLine, Opening, TypeScript;
    var opening, at := [Opening(|head|, |mid|)], |head| + |text|;
    TypeStep(at, lines);
    if lines == [] {
      OpeningEffect(head, mid, tail, text, rest);
      assert head + text + lines + tail == head + text + tail;
    } else if lines[0] == DOT {
      var more := TypeScript(at + 1, lines[1..], false) + rest;
      var single := [CommandLine(at + 1, at + 1, Single)];
      assert opening + text + TypeScript(at, lines, true) + rest == opening + (text + [DOTS]) + [DOT] + (single + more);
      OpeningEffect(head, mid, tail, text + [DOTS], single + more);
      assert head + (text + [DOTS]) + tail == (head + text) + [DOTS] + tail;
      SingleEffect(head + text, tail, more);
      ResumeEffect(head + text + [DOT], lines[1..], tail, rest);
      assert head + text + [DOT] + lines[1..] + tail == head + text + lines + tail;
    } else {
      assert opening + text + TypeScript(at, lines, true) + rest
          == opening + (text + [lines[0]]) + TypeScript(at + 1, lines[1..], true) + rest;
      TypingEffect(head, mid, text + [lines[0]], lines[1..], tail, rest);
      assert head + (text + [lines[0]]) + lines[1..] + tail == head + text + lines + tail;
    }
  }

  lemma TypeStep(at: nat, lines: seq<Line>)
    ensures lines == [] ==> TypeScript(at, lines, true) == [DOT] && TypeScript(at, lines, false) == []
    ensures lines != [] && lines[0] == DOT ==>
              TypeScript(at, lines, true) == [DOTS] + [DOT] + [CommandLine(at + 1, at + 1, Single)] + TypeScript(at + 1, lines[1..], false)
    ensures lines != [] && lines[0] != DOT ==> TypeScript(at, lines, true) == [lines[0]] + TypeScript(at + 1, lines[1..], true)
    ensures lines != [] ==> TypeScript(at, lines, false) == [Opening(at, 0)] + TypeScript(at, lines, true)
  {
    hide *;
    if lines == [] {
      StepNothing(at);
    } else {
      StepPause(at, lines);
      if lines[0] == DOT {
        StepDot(at, lines);
      } else {
        StepLine(at, lines);
      }
    }
  }

  lemma StepNothing(at: nat)
    ensures TypeScript(at, [], true) == [DOT] && TypeScript(at, [], false) == []
  {
  }

  lemma StepDot(at: nat, lines: seq<Line>)
    requires lines != [] && lines[0] == DOT
    ensures TypeScript(at, lines, true) == [DOTS] + [DOT] + [CommandLine(at + 1, at + 1, Single)] + TypeScript(at + 1, lines[1..], false)
  {
    hide CommandLine;
    var rest := TypeScript(at + 1, lines[1..], false);
    assert [] + ([DOTS, DOT, CommandLine(at + 1, at + 1, Single)] + rest) == [DOTS] + [DOT] + [CommandLine(at + 1, at + 1, Single)] + rest;
  }

  lemma StepLine(at: nat, lines: seq<Line>)
    requires lines != [] && lines[0] != DOT
    ensures TypeScript(at, lines, true) == [lines[0]] + TypeScript(at + 1, lines[1..], true)
  {
  }

  lemma StepPause(at: nat, lines: seq<Line>)
    requires lines != []
    ensures TypeScript(at, lines, false) == [Opening(at, 0)] + TypeScript(at, lines, true)
  {
    hide CommandLine;
  }

  /** After a pause: typing starts again, if there is more to type. */
  lemma {:induction false} ResumeEffect(head: File, lines: seq<Line>, tail: File, rest: seq<Line>)
    ensures Ed.Ed(TypeScript(|head|, lines, false) + rest, head + tail) == Ed.Ed(rest, head + lines + tail)
    decreases |lines|, 1
  {
    hide Ed.Ed, CommandLine, Opening, TypeScript;
    TypeStep(|head|, lines);
    if lines == [] {
      assert [] + rest == rest && head + lines + tail == head + tail;
    } else {
      TypingEffect(head, [], [], lines, tail, rest);
      assert [Opening(|head|, 0)] + [] + TypeScript(|head|, lines, true) + rest == TypeScript(|head|, lines, false) + rest;
      assert head + [] + tail == head + tail && head + [] + lines + tail == head + lines + tail;
    }
  }

  /** The commands of one change put its inserted lines in the place of its deleted ones. */
  lemma HunkEffect(head: File, mid: File, inserted: seq<Line>, tail: File, rest: seq<Line>)
    requires mid != [] || inserted != []
    ensures Ed.Ed(HunkScript(|head|, |mid|, inserted) + rest, head + mid + tail) == Ed.Ed(rest, head + inserted + tail)
  {
    hide Ed.Ed, CommandLine, Opening, TypeScript;
    if inserted == [] {
      EdDelete(head, mid, tail, rest);
      assert head + inserted + tail == head + tail;
    } else {
      TypingEffect(head, mid, [], inserted, tail, rest);
      assert [Opening(|head|, |mid|)] + [] + TypeScript(|head|, inserted, true) + rest == HunkScript(|head|, |mid|, inserted) + rest;
      assert head + [] + inserted + tail == head + inserted + tail;
    }
  }

  lemma CoversPlaced(c: Change, f0: seq<bool>, f1: seq<bool>)
    requires Covers(c, f0, f1)
    ensures Placed(c, |f1|)
  {
  }

  /** The changes of a script are in place. */
  lemma {:induction false} ScriptPlaced(s: seq<Change>, f0: seq<bool>, f1: seq<bool>, a0: int, a1: int)
    requires Between(s, f0, f1, a0, a1, |f0|, |f1|)
    ensures forall i :: 0 <= i < |s| ==> Placed(s[i], |f1|)
    decreases |s|
  {
    hide Covers, Gap, Placed;
    if s != [] {
      CoversPlaced(s[0], f0, f1);
      ScriptPlaced(s[1..], f0, f1, s[0].End0(), s[0].End1());
      assert forall i :: 0 < i < |s| ==> s[i] == s[1..][i - 1];
    }
  }

  /** Running the commands makes the changes to the buffer; what is before them and after them stays. */
  lemma {:induction false} EdMakesChanges(s: seq<Change>, f0: seq<bool>, f1: seq<bool>, pre: File, a: File, b: File, post: File,
                                          a0: int, a1: int, rest: seq<Line>)
    requires |f0| == |a| && |f1| == |b| && Between(s, f0, f1, a0, a1, |a|, |b|) && 0 <= a0 <= |a|
    requires forall i :: 0 <= i < |s| ==> Placed(s[i], |b|)
    ensures Ed.Ed(WholeScript(s, |pre|, b) + rest, pre + a + post) == Ed.Ed(rest, pre + a[..a0] + Apply(s, a, b, a0) + post)
    decreases |s|
  {
    if s == [] {
      NothingToDo(pre, a, post, a0, rest);
      hide *;
    } else {
      var c := s[0];
      assert Placed(c, |b|) && Covers(c, f0, f1) && a0 <= c.line0;
      assert Between(s[1..], f0, f1, c.End0(), c.End1(), |a|, |b|);
      var head, mid, inserted := pre + a[..c.line0], a[c.line0..c.End0()], b[c.line1..c.End1()];
      var more, done := HunkScript(|head|, |mid|, inserted) + rest, Apply(s[1..], a, b, c.End0());
      FirstHunk(s, pre, a, b, rest);
      assert Apply(s, a, b, a0) == a[a0..c.line0] + inserted + done;
      hide *;
      EdMakesChanges(s[1..], f0, f1, pre, a, b, post, c.End0(), c.End1(), more);
      SplitBuffer(pre, a, c, inserted, done, post, a0);
      HunkEffect(head, mid, inserted, done + post, rest);
    }
  }

  lemma NothingToDo(pre: File, a: File, post: File, a0: int, rest: seq<Line>)
    requires 0 <= a0 <= |a|
    ensures [] + rest == rest && pre + a[..a0] + a[a0..] + post == pre + a + post
  {
    assert a[..a0] + a[a0..] == a;
    assert pre + a[..a0] + a[a0..] == pre + a;
  }

  lemma FirstHunk(s: seq<Change>, pre: File, a: File, b: File, rest: seq<Line>)
    requires s != [] && (forall i :: 0 <= i < |s| ==> Placed(s[i], |b|)) && s[0].End0() <= |a|
    ensures Placed(s[0], |b|)
    ensures var c := s[0];
            WholeScript(s, |pre|, b) + rest
            == WholeScript(s[1..], |pre|, b) + (HunkScript(|pre + a[..c.line0]|, |a[c.line0..c.End0()]|, b[c.line1..c.End1()]) + rest)
  {
    hide HunkScript;
    assert Placed(s[0], |b|);
  }

  lemma SplitBuffer(pre: File, a: File, c: Change, inserted: File, done: File, post: File, a0: int)
    requires 0 <= a0 <= c.line0 <= c.End0() <= |a|
    ensures pre + a[..c.End0()] + done + post == (pre + a[..c.line0]) + a[c.line0..c.End0()] + (done + post)
    ensures (pre + a[..c.line0]) + inserted + (done + post) == pre + a[..a0] + (a[a0..c.line0] + inserted + done) + post
  {
    assert a[..c.End0()] == a[..c.line0] + a[c.line0..c.End0()];
    assert a[..c.line0] == a[..a0] + a[a0..c.line0];
  }

  // ----- Printing

  function TranslateLineNumber(prefixLines: nat, line: int): int {
    line + prefixLines + 1
  }

  function TranslateRange(prefixLines: nat, first: int, last: int): (int, int) {
    (TranslateLineNumber(prefixLines, first - 1) + 1, TranslateLineNumber(prefixLines, last + 1) - 1)
  }

  function ChangeLetter(inserts: int, deletes: int): Verb {
    if inserts == 0 then Delete else if deletes == 0 then Add else Verb.Change
  }

  /** Print a range as two numbers, or as one, which for a range of no lines is the line before it. */
  method PutRange(w: EdWriter, first: int, last: int, prefixLines: nat, verb: Verb)
    requires w.Valid() && 0 <= first <= last + 1
    modifies w
    ensures w.Valid()
    ensures w.script == old(w.script) + [if first < last then CommandLine(first + prefixLines + 1, last + prefixLines + 1, verb)
                                         else CommandLine(last + prefixLines + 1, last + prefixLines + 1, verb)]
  {
    hide CommandLine;
    var (transA, transB) := TranslateRange(prefixLines, first, last);
    if transB > transA {
      w.PutCommand(transA, transB, verb);
    } else {
      w.PutCommand(transB, transB, verb);
    }
  }

  /** Print one change; linbuf1 are file 1's lines. */
  method PrintEdHunk(w: EdWriter, hunk: Change, prefixLines: nat, linbuf1: File)
    requires w.Valid() && Placed(hunk, |linbuf1|)
    requires forall i :: 0 <= i < |linbuf1| ==> IsLine(linbuf1[i]) && Ended(linbuf1[i])
    modifies w
    ensures w.Valid()
    ensures w.script == old(w.script) + HunkScript(hunk.line0 + prefixLines, hunk.deleted, linbuf1[hunk.line1..hunk.End1()])
  {
    hide CommandLine, TypeScript, IsLine, Ended, Flat, EdWriter.Valid;
    var f0, l0, f1, l1 := hunk.line0, hunk.line0 + hunk.deleted - 1, hunk.line1, hunk.line1 + hunk.inserted - 1;
    ghost var start, low := w.script, f0 + prefixLines;
    ghost var inserted := linbuf1[f1..l1 + 1];
    PutRange(w, f0, l0, prefixLines, ChangeLetter(hunk.inserted, hunk.deleted));
    if hunk.inserted != 0 {
      assert w.script == start + [Opening(low, hunk.deleted)];
      TypeLines(w, f0, f1, l1, prefixLines, linbuf1);
      assert w.script == start + HunkScript(low, hunk.deleted, inserted);
    }
  }

  /** A line that is just a dot, found by its first two characters. */
  lemma LoneDot(line: Line)
    requires IsLine(line) && Ended(line)
    ensures (line[0] == '.' && |line| > 1 && line[1] == '\n') <==> line == DOT
  {
    if line[0] == '.' && |line| > 1 && line[1] == '\n' {
      assert |line| == 2;
    }
  }

  /** Type the inserted lines. */
  method TypeLines(w: EdWriter, f0: int, f1: int, l1: int, prefixLines: nat, linbuf1: File)
    requires w.Valid() && 0 <= f0 && 0 <= f1 <= l1 + 1 <= |linbuf1|
    requires forall i :: 0 <= i < |linbuf1| ==> IsLine(linbuf1[i]) && Ended(linbuf1[i])
    modifies w
    ensures w.Valid() && w.script == old(w.script) + TypeScript(f0 + prefixLines, linbuf1[f1..l1 + 1], true)
  {
    hide CommandLine, TypeScript, IsLine, Ended, Flat, EdWriter.Valid;
    var inserting, i := true, f1;
    ghost var start, all := w.script, TypeScript(f0 + prefixLines, linbuf1[f1..l1 + 1], true);
    while i <= l1
      invariant f1 <= i <= l1 + 1 && w.Valid()
      invariant w.script + TypeScript(i - f1 + f0 + prefixLines, linbuf1[i..l1 + 1], inserting) == start + all
    {
      inserting := TypeLine(w, linbuf1[i..l1 + 1], i - f1 + TranslateLineNumber(prefixLines, f0) - 1, inserting, linbuf1[i]);
      assert linbuf1[i..l1 + 1][1..] == linbuf1[i + 1..l1 + 1];
      i := i + 1;
    }
    assert linbuf1[i..l1 + 1] == [];
    TypeStep(i - f1 + f0 + prefixLines, []);
    assert w.script + [] == w.script;
    if inserting {
      w.PutLine(".\n");
    }
  }

  /** One line; the number is that of the line before it. */
  method TypeLine(w: EdWriter, ghost lines: seq<Line>, at: nat, inserting: bool, line: Line) returns (stillInserting: bool)
    requires w.Valid() && lines != [] && lines[0] == line && IsLine(line) && Ended(line)
    modifies w
    ensures w.Valid()
    ensures w.script + TypeScript(at + 1, lines[1..], stillInserting) == old(w.script) + TypeScript(at, lines, inserting)
  {
    assert line != [];
    hide CommandLine, TypeScript, IsLine, Ended, Flat, EdWriter.Valid;
    TypeStep(at, lines);
    LoneDot(line);
    if !inserting {
      w.PutCommand(at, at, Add);
    }
    ghost var resumed := w.script;
    Resumed(old(w.script), resumed, at, lines, inserting);
    if line[0] == '.' && |line| > 1 && line[1] == '\n' {
      TypeDot(w, at + 1);
      Onward(resumed, [DOTS] + [DOT] + [CommandLine(at + 1, at + 1, Single)], TypeScript(at + 1, lines[1..], false));
      stillInserting := false;
    } else {
      w.PutLine(line);
      Onward(resumed, [line], TypeScript(at + 1, lines[1..], true));
      stillInserting := true;
    }
  }

  lemma Onward(a: seq<Line>, b: seq<Line>, c: seq<Line>)
    ensures (a + b) + c == a + (b + c)
  {
  }

  lemma Resumed(before: seq<Line>, after: seq<Line>, at: nat, lines: seq<Line>, inserting: bool)
    requires lines != [] && after == if inserting then before else before + [Opening(at, 0)]
    ensures after + TypeScript(at, lines, true) == before + TypeScript(at, lines, inserting)
  {
    hide TypeScript, CommandLine;
    TypeStep(at, lines);
    Onward(before, [Opening(at, 0)], TypeScript(at, lines, true));
  }

  /** Two dots for one, the end of the text, and the command that makes them one again. */
  method TypeDot(w: EdWriter, at: nat)
    requires w.Valid()
    modifies w
    ensures w.Valid() && w.script == old(w.script) + ([DOTS] + [DOT] + [CommandLine(at, at, Single)])
  {
    hide CommandLine, Flat, EdWriter.Valid;
    ghost var start := w.script;
    w.PutLine("..\n");
    w.PutLine(".\n");
    w.PutCommand(at, at, Single);
    assert w.script == ((start + [DOTS]) + [DOT]) + [CommandLine(at, at, Single)];
  }

  lemma {:induction false} ReverseOfMore<T>(s: seq<T>, n: nat)
    requires n < |s|
    ensures Reverse(s[..n + 1]) == [s[n]] + Reverse(s[..n])
    decreases n
  {
    if n == 0 {
      assert s[..1] == [s[0]] && s[..0] == [];
    } else {
      assert s[..n + 1][1..] == s[1..][..n] && s[..n][1..] == s[1..][..n - 1];
      ReverseOfMore(s[1..], n - 1);
    }
  }

  lemma {:induction false} ReversePlaced(s: seq<Change>, size: nat)
    requires forall i :: 0 <= i < |s| ==> Placed(s[i], size)
    ensures |Reverse(s)| == |s| && forall i :: 0 <= i < |Reverse(s)| ==> Placed(Reverse(s)[i], size)
    decreases |s|
  {
    if s != [] {
      ReversePlaced(s[1..], size);
    }
  }

  lemma ReverseReverse<T>(s: seq<T>, t: seq<T>)
    requires t == Reverse(s)
    ensures Reverse(t) == s
    decreases |s|
  {
    if s != [] {
      ReverseReverse(s[1..], Reverse(s[1..]));
      AppendReversed(Reverse(s[1..]), s[0]);
    }
  }

  lemma {:induction false} AppendReversed<T>(s: seq<T>, c: T)
    ensures Reverse(s + [c]) == [c] + Reverse(s)
    decreases |s|
  {
    if s == [] {
      assert s + [c] == [c];
    } else {
      assert (s + [c])[0] == s[0] && (s + [c])[1..] == s[1..] + [c];
      AppendReversed(s[1..], c);
    }
  }

  /** Print a script that has its last change first. */
  method PrintEdScript(w: EdWriter, script: seq<Change>, prefixLines: nat, linbuf1: File)
    requires w.Valid() && w.script == [] && forall i :: 0 <= i < |script| ==> Placed(script[i], |linbuf1|)
    requires forall i :: 0 <= i < |linbuf1| ==> IsLine(linbuf1[i]) && Ended(linbuf1[i])
    modifies w
    ensures w.Valid() && forall i :: 0 <= i < |Reverse(script)| ==> Placed(Reverse(script)[i], |linbuf1|)
    ensures w.script == WholeScript(Reverse(script), prefixLines, linbuf1)
  {
    hide HunkScript, IsLine, Ended, Flat, EdWriter.Valid, Placed, Reverse, WholeScript;
    var n := 0;
    ReversePlaced(script[..0], |linbuf1|);
    NothingPrinted(prefixLines, linbuf1, script);
    while n < |script|
      invariant 0 <= n <= |script| && w.Valid()
      invariant forall i :: 0 <= i < |Reverse(script[..n])| ==> Placed(Reverse(script[..n])[i], |linbuf1|)
      invariant w.script == WholeScript(Reverse(script[..n]), prefixLines, linbuf1)
    {
      var c := script[n];
      ReverseOfMore(script, n);
      ReversePlaced(script[..n + 1], |linbuf1|);
      PrintEdHunkMore(w, c, prefixLines, linbuf1, Reverse(script[..n]));
      n := n + 1;
    }
    assert script[..n] == script;
  }

  lemma NothingPrinted(prefixLines: nat, linbuf1: File, script: seq<Change>)
    ensures Reverse(script[..0]) == [] && WholeScript([], prefixLines, linbuf1) == []
  {
  }

  method PrintEdHunkMore(w: EdWriter, c: Change, prefixLines: nat, linbuf1: File, ghost later: seq<Change>)
    requires w.Valid() && Placed(c, |linbuf1|) && forall i :: 0 <= i < |later| ==> Placed(later[i], |linbuf1|)
    requires forall i :: 0 <= i < |linbuf1| ==> IsLine(linbuf1[i]) && Ended(linbuf1[i])
    requires w.script == WholeScript(later, prefixLines, linbuf1)
    modifies w
    ensures w.Valid() && forall i :: 0 <= i < |[c] + later| ==> Placed(([c] + later)[i], |linbuf1|)
    ensures w.script == WholeScript([c] + later, prefixLines, linbuf1)
  {
    hide HunkScript, IsLine, Ended, Flat, EdWriter.Valid, Placed;
    assert ([c] + later)[1..] == later;
    assert 0 <= c.line1 <= c.End1() <= |linbuf1| && 0 <= c.line0 by {
      PlacedBounds(c, |linbuf1|);
    }
    PrintEdHunk(w, c, prefixLines, linbuf1);
  }

  lemma PlacedBounds(c: Change, size: nat)
    requires Placed(c, size)
    ensures 0 <= c.line1 <= c.End1() <= size && 0 <= c.line0 && 0 <= c.deleted
  {
  }

  // ----- From two files to an ed script

  lemma TypeEnded(at: nat, lines: seq<Line>, inserting: bool)
    requires AllEnded(lines)
    ensures AllEnded(TypeScript(at, lines, inserting))
    decreases |lines|
  {
    hide CommandLine;
    CommandLineIsLine(at, at, Add);
    CommandLineIsLine(at + 1, at + 1, Single);
    assert IsLine(DOT) && Ended(DOT) && IsLine(DOTS) && Ended(DOTS);
    if lines != [] {
      assert IsLine(lines[0]) && Ended(lines[0]);
      hide IsLine, Ended;
      assert AllEnded(lines[1..]);
      TypeEnded(at + 1, lines[1..], false);
      TypeEnded(at + 1, lines[1..], true);
    }
  }

  lemma HunkEnded(low: nat, deleted: nat, inserted: seq<Line>)
    requires AllEnded(inserted)
    ensures AllEnded(HunkScript(low, deleted, inserted))
  {
    hide CommandLine, TypeScript, IsLine, Ended;
    CommandLineIsLine(low, low, Add);
    CommandLineIsLine(low + 1, low + deleted, Delete);
    CommandLineIsLine(low + 1, low + deleted, Verb.Change);
    TypeEnded(low, inserted, true);
  }

  lemma {:induction false} WholeEnded(s: seq<Change>, prefix: nat, b: File)
    requires AllEnded(b) && forall i :: 0 <= i < |s| ==> Placed(s[i], |b|)
    ensures AllEnded(WholeScript(s, prefix, b))
    decreases |s|
  {
    if s != [] {
      var c := s[0];
      assert Placed(c, |b|);
      hide HunkScript, IsLine, Ended;
      WholeEnded(s[1..], prefix, b);
      HunkEnded(c.line0 + prefix, c.deleted, b[c.line1..c.End1()]);
    }
  }

  lemma ApplyWhole(s: seq<Change>, f0: seq<bool>, f1: seq<bool>, a: File, b: File)
    requires |f0| == |a| && |f1| == |b| && IsScript(s, f0, f1) && SameLeft(a, f0, b, f1)
    ensures Between(s, f0, f1, 0, 0, |a|, |b|) && Apply(s, a, b, 0) == b
  {
    hide Kept, Between, Apply;
    ApplyGivesOther(s, f0, f1, a, b, 0, 0);
    assert b[0..] == b;
  }

  lemma EdGivesOtherLines(s: seq<Change>, f0: seq<bool>, f1: seq<bool>, pre: File, a: File, b: File, post: File)
    requires |f0| == |a| && |f1| == |b| && IsScript(s, f0, f1)
    requires SameLeft(a, f0, b, f1)
    requires forall i :: 0 <= i < |s| ==> Placed(s[i], |b|)
    ensures Ed.Ed(WholeScript(s, |pre|, b), pre + a + post) == Ed.Ed([], pre + b + post)
  {
    hide *;
    var script := WholeScript(s, |pre|, b);
    ApplyWhole(s, f0, f1, a, b);
    NoneKept(pre, a, b, post, script);
    EdMakesChanges(s, f0, f1, pre, a, b, post, 0, 0, []);
  }

  lemma NoneKept(pre: File, a: File, b: File, post: File, script: seq<Line>)
    ensures b[0..] == b && pre + a[..0] + b + post == pre + b + post && script + [] == script
  {
    assert a[..0] == [];
    assert pre + [] == pre;
  }

  lemma JoinEnded(pre: File, a: File, post: File)
    requires AllEnded(pre) && AllEnded(a) && AllEnded(post)
    ensures AllEnded(pre + a + post)
  {
    hide IsLine, Ended;
  }

  /** A script that the flags call for, run by ed on all of file 0. */
  lemma EdGivesOther(s: seq<Change>, f0: seq<bool>, f1: seq<bool>, pre: File, a: File, b: File, post: File)
    requires AllEnded(pre) && AllEnded(a) && AllEnded(b) && AllEnded(post)
    requires |f0| == |a| && |f1| == |b| && IsScript(s, f0, f1)
    requires SameLeft(a, f0, b, f1)
    requires forall i :: 0 <= i < |s| ==> Placed(s[i], |b|)
    ensures Ed.Run(Flat(WholeScript(s, |pre|, b)), Flat(pre + a + post)) == Some(Flat(pre + b + post))
  {
    hide *;
    var script := WholeScript(s, |pre|, b);
    EdGivesOtherLines(s, f0, f1, pre, a, b, post);
    WholeEnded(s, |pre|, b);
    JoinEnded(pre, a, post);
    LinesOfFlat(script);
    LinesOfFlat(pre + a + post);
    RunIsEd(script, pre + a + post, pre + b + post);
  }

  lemma RunIsEd(script: seq<Line>, file: File, result: File)
    requires Text.Lines(Flat(script)) == script && Text.Lines(Flat(file)) == file
    requires Ed.Ed(script, file) == Ed.Ed([], result)
    ensures Ed.Run(Flat(script), Flat(file)) == Some(Flat(result))
  {
    hide Text.Lines;
  }

  /**
   The differ in the ed style.  The files have a common beginning and end, the codes tell
   apart the lines in between, and the script that comes out makes file 1 of file 0.
   */
  method EdDiff(pre: File, a: File, b: File, post: File, codes0: seq<int>, codes1: seq<int>, equivMax: nat,
                noDiscards: bool, heuristic: bool, inhibit: bool)
    returns (output: string)
    requires AllEnded(pre) && AllEnded(a) && AllEnded(b) && AllEnded(post)
    requires Coded(a, codes0, b, codes1)
    requires forall p :: 0 <= p < |codes0| ==> 0 <= codes0[p] < equivMax
    requires forall p :: 0 <= p < |codes1| ==> 0 <= codes1[p] < equivMax
    requires |codes0| + |codes1| + 3 < INT_MAX
    ensures Ed.Run(output, Flat(pre + a + post)) == Some(Flat(pre + b + post))
  {
    var script := DiffFiles(codes0, codes1, equivMax, noDiscards, heuristic, inhibit, true);
    ghost var f0, f1 :| Matching(codes0, f0, codes1, f1) && IsScript(Reverse(script), f0, f1);
    LinesLeft(a, codes0, f0, b, codes1, f1);
    ScriptPlaced(Reverse(script), f0, f1, 0, 0);
    ReversePlaced(Reverse(script), |b|);
    ReverseReverse(script, Reverse(script));
    hide Between, Reverse, WholeScript, Ed.Run, Flat, Kept, Placed;
    var w := new EdWriter();
    PrintEdScript(w, script, |pre|, b);
    EdGivesOther(Reverse(script), f0, f1, pre, a, b, post);
    w.ValidMeans();
    output := w.output;
  }
}
