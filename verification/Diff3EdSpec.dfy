/**
 What the ed script made from a three-way diff does when ed runs it on MYFILE.
 */
module Diff3EdSpec {
  import opened Wrappers
  import opened Text
  import opened Diff3Merge
  import Ed = EdUtility
  import opened EdUtility

  // ----- The script

  predicate HasDot(line: Line) {
    line != [] && line[0] == '.'
  }

  predicate LeadingDot(lines: seq<Line>) {
    exists i :: 0 <= i < |lines| && HasDot(lines[i])
  }

  function Dotted(line: Line): Line {
    if HasDot(line) then "." + line else line
  }

  ghost function DottedAll(lines: seq<Line>): (r: seq<Line>)
    ensures |r| == |lines| && forall i :: 0 <= i < |lines| ==> r[i] == Dotted(lines[i])
  {
    seq(|lines|, i requires 0 <= i < |lines| => Dotted(lines[i]))
  }

  /** The end of the text, and if need be a command to remove the dots that were added. */
  ghost function UndotScript(leadingDot: bool, start: nat, num: nat): seq<Line>
    requires 1 <= start
  {
    [DOT] + if leadingDot then [CommandLine(start, start + num - 1, Undot)] else []
  }

  ghost function ChangeScript(low: nat, mine: seq<Line>, yours: seq<Line>): seq<Line>
    requires 1 <= low
  {
    if yours == [] then [CommandLine(low, low + |mine| - 1, Delete)]
    else
      [if mine == [] then CommandLine(low - 1, low - 1, Add) else CommandLine(low, low + |mine| - 1, Change)]
      + DottedAll(yours) + UndotScript(LeadingDot(yours), low, |yours|)
  }

  // ----- Its effect

  lemma DottedIsText(lines: seq<Line>)
    ensures forall i :: 0 <= i < |DottedAll(lines)| ==> DottedAll(lines)[i] != DOT
  {
    forall i | 0 <= i < |lines|
      ensures DottedAll(lines)[i] != DOT
    {
      if HasDot(lines[i]) {
        assert Dotted(lines[i])[1] == '.';
      }
    }
  }

  /** Removing one dot undoes the doubling. */
  lemma UndotDotted(lines: seq<Line>)
    ensures SubstituteAll(DottedAll(lines), Undot) == lines
    ensures LeadingDot(lines) ==> AnyMatches(DottedAll(lines), Undot)
    ensures !LeadingDot(lines) ==> DottedAll(lines) == lines
  {
    forall i | 0 <= i < |lines|
      ensures Substituted(Dotted(lines[i]), Undot) == lines[i]
    {
      if HasDot(lines[i]) {
        assert ("." + lines[i])[1..] == lines[i];
      }
    }
    if LeadingDot(lines) {
      var i :| 0 <= i < |lines| && HasDot(lines[i]);
      assert Matches(DottedAll(lines)[i], Undot);
    } else {
      assert forall i :: 0 <= i < |lines| ==> !HasDot(lines[i]);
    }
  }

  /** Text with doubled dots and then the command that removes them. */
  lemma EdUndot(head: File, lines: seq<Line>, tail: File, rest: seq<Line>)
    ensures Ed.Ed((if LeadingDot(lines) then [CommandLine(|head| + 1, |head| + |lines|, Undot)] else []) + rest, head + DottedAll(lines) + tail)
            == Ed.Ed(rest, head + lines + tail)
  {
    hide Ed.Ed, CommandLine, DottedAll, SubstituteAll, LeadingDot, AnyMatches;
    UndotDotted(lines);
    if LeadingDot(lines) {
      EdSubstitute(head, DottedAll(lines), tail, Undot, rest);
    } else {
      assert [] + rest == rest;
    }
  }

  /** The script for a block without conflict puts YOURFILE's lines in the place of MYFILE's. */
  lemma ChangeEffect(head: File, mine: File, yours: File, tail: File, rest: seq<Line>)
    requires mine != [] || yours != []
    ensures Ed.Ed(ChangeScript(|head| + 1, mine, yours) + rest, head + mine + tail) == Ed.Ed(rest, head + yours + tail)
  {
    hide Ed.Ed, CommandLine, DottedAll, LeadingDot;
    var low := |head| + 1;
    if yours == [] {
      EdDelete(head, mine, tail, rest);
      assert head + yours + tail == head + tail;
    } else {
      DottedIsText(yours);
      EdUndot(head, yours, tail, rest);
      var dots := if LeadingDot(yours) then [CommandLine(low, |head| + |yours|, Undot)] else [];
      if mine == [] {
        EdAdd(head, tail, DottedAll(yours), dots + rest);
        assert head + mine + tail == head + tail;
        assert ChangeScript(low, mine, yours) + rest == [CommandLine(low - 1, low - 1, Add)] + DottedAll(yours) + [DOT] + (dots + rest);
      } else {
        EdChange(head, mine, tail, DottedAll(yours), dots + rest);
        assert ChangeScript(low, mine, yours) + rest == [CommandLine(low, |head| + |mine|, Change)] + DottedAll(yours) + [DOT] + (dots + rest);
      }
    }
  }

  // ----- Conflicts

  const BAR: Line := "=======\n"

  function Label(marker: string, name: string): Line {
    marker + " " + name + "\n"
  }

  /** Labels that stay on one line. */
  predicate PlainLabels(o: Options) {
    '\n' !in o.name0 && '\n' !in o.name1 && '\n' !in o.name2
  }

  lemma LabelIsLine(marker: string, name: string)
    requires '\n' !in marker && '\n' !in name
    ensures IsLine(Label(marker, name)) && Ended(Label(marker, name))
  {
    var line := Label(marker, name);
    forall i | 0 <= i < |line| - 1
      ensures line[i] != '\n'
    {
      assert line[i] == (marker + " " + name)[i];
    }
  }

  /** The lines appended after MYFILE's. */
  ghost function AfterMine(all: bool, older: seq<Line>, yours: seq<Line>, o: Options): seq<Line> {
    (if all then (if o.show2nd then [Label("|||||||", o.name1)] + DottedAll(older) else []) + [BAR] + DottedAll(yours) else [])
    + [Label(">>>>>>>", o.name2)]
  }

  /** Whether lines appended after MYFILE's had dots doubled. */
  ghost predicate DotsAfter(all: bool, older: seq<Line>, yours: seq<Line>, o: Options) {
    all && ((o.show2nd && LeadingDot(older)) || LeadingDot(yours))
  }

  ghost function BeforeMine(all: bool, older: seq<Line>, o: Options): seq<Line> {
    [Label("<<<<<<<", if all then o.name0 else o.name1)] + (if all then [] else DottedAll(older) + [BAR])
  }

  ghost function AfterScript(all: bool, high: nat, older: seq<Line>, yours: seq<Line>, o: Options): seq<Line> {
    [CommandLine(high, high, Add)] + AfterMine(all, older, yours, o)
    + UndotScript(DotsAfter(all, older, yours, o), high + 2, |older| + |yours| + 1)
  }

  ghost function BeforeScript(all: bool, low: nat, older: seq<Line>, o: Options): seq<Line>
    requires 1 <= low
  {
    [CommandLine(low - 1, low - 1, Add)] + BeforeMine(all, older, o) + UndotScript(!all && LeadingDot(older), low + 1, |older|)
  }

  ghost function ConflictScript(all: bool, low: nat, high: nat, older: seq<Line>, yours: seq<Line>, o: Options): seq<Line>
    requires 1 <= low
  {
    AfterScript(all, high, older, yours, o) + BeforeScript(all, low, older, o)
  }

  /** What then comes after MYFILE's lines; without OLDFILE's lines the dots are removed from too many lines. */
  ghost function AfterResult(all: bool, older: seq<Line>, yours: seq<Line>, o: Options, tail: File): Option<File> {
    if !all then Some([Label(">>>>>>>", o.name2)] + tail)
    else if o.show2nd then Some([Label("|||||||", o.name1)] + older + [BAR] + yours + [Label(">>>>>>>", o.name2)] + tail)
    else if !LeadingDot(yours) then Some([BAR] + yours + [Label(">>>>>>>", o.name2)] + tail)
    else if |older| > |tail| then None
    else Some([BAR] + yours + [Label(">>>>>>>", o.name2)] + (SubstituteAll(tail[..|older|], Undot) + tail[|older|..]))
  }

  ghost function BeforeResult(all: bool, older: seq<Line>, o: Options): seq<Line> {
    [Label("<<<<<<<", if all then o.name0 else o.name1)] + if all then [] else older + [BAR]
  }

  /** A conflict once its script has been run: what comes of it and of the lines after it. */
  ghost function ConflictResult(all: bool, mine: seq<Line>, older: seq<Line>, yours: seq<Line>, o: Options, tail: File): Option<File> {
    match AfterResult(all, older, yours, o, tail)
    case None => None
    case Some(after) => Some(BeforeResult(all, older, o) + mine + after)
  }

  lemma {:induction false} DottedJoin(a: seq<Line>, b: seq<Line>)
    ensures DottedAll(a + b) == DottedAll(a) + DottedAll(b)
    ensures LeadingDot(a + b) <==> LeadingDot(a) || LeadingDot(b)
  {
    if LeadingDot(a) {
      var i :| 0 <= i < |a| && HasDot(a[i]);
      assert HasDot((a + b)[i]);
    }
    if LeadingDot(b) {
      var i :| 0 <= i < |b| && HasDot(b[i]);
      assert HasDot((a + b)[|a| + i]);
    }
  }

  lemma DottedBar(older: seq<Line>, yours: seq<Line>)
    ensures DottedAll(older + [BAR] + yours) == DottedAll(older) + [BAR] + DottedAll(yours)
    ensures LeadingDot(older + [BAR] + yours) <==> LeadingDot(older) || LeadingDot(yours)
  {
    DottedJoin(older + [BAR], yours);
    DottedJoin(older, [BAR]);
    assert !HasDot(BAR) && DottedAll([BAR]) == [BAR];
  }

  lemma MarkersAreText(a: Line, older: seq<Line>, yours: seq<Line>, z: Line)
    requires a != DOT && z != DOT
    ensures var text := [a] + DottedAll(older) + [BAR] + DottedAll(yours) + [z];
            forall i :: 0 <= i < |text| ==> text[i] != DOT
  {
    DottedIsText(older);
    DottedIsText(yours);
    assert BAR[0] == '=';
  }

  lemma LabelIsText(marker: string, name: string)
    requires marker != [] && marker[0] != '.'
    ensures Label(marker, name) != DOT && !HasDot(Label(marker, name))
  {
    assert Label(marker, name)[0] == marker[0];
  }

  /** What has been typed, OLDFILE's lines included, before dots are removed. */
  lemma TypedWithOlder(h: File, older: seq<Line>, yours: seq<Line>, o: Options, tail: File, dots: seq<Line>, rest: seq<Line>)
    requires o.show2nd
    requires dots == if LeadingDot(older) || LeadingDot(yours) then [CommandLine(|h| + 2, |h| + 2 + |older| + |yours|, Undot)] else []
    ensures Ed.Ed(AfterScript(true, |h|, older, yours, o) + rest, h + tail)
            == Ed.Ed(dots + rest, h + ([Label("|||||||", o.name1)] + DottedAll(older) + [BAR] + DottedAll(yours) + [Label(">>>>>>>", o.name2)]) + tail)
  {
    hide Ed.Ed, CommandLine, DottedAll, LeadingDot, Label;
    var text := [Label("|||||||", o.name1)] + DottedAll(older) + [BAR] + DottedAll(yours) + [Label(">>>>>>>", o.name2)];
    assert AfterMine(true, older, yours, o) == text;
    LabelIsText("|||||||", o.name1);
    LabelIsText(">>>>>>>", o.name2);
    MarkersAreText(Label("|||||||", o.name1), older, yours, Label(">>>>>>>", o.name2));
    EdAdd(h, tail, text, dots + rest);
    assert AfterScript(true, |h|, older, yours, o) + rest == [CommandLine(|h|, |h|, Add)] + text + [DOT] + (dots + rest);
  }

  /** Dots are removed from the lines between the two labels. */
  lemma UndotBetween(h: File, a: Line, older: seq<Line>, yours: seq<Line>, z: Line, tail: File, rest: seq<Line>)
    ensures var dots := if LeadingDot(older) || LeadingDot(yours) then [CommandLine(|h| + 2, |h| + 2 + |older| + |yours|, Undot)] else [];
            Ed.Ed(dots + rest, h + ([a] + DottedAll(older) + [BAR] + DottedAll(yours) + [z]) + tail)
            == Ed.Ed(rest, (h + [a]) + (older + [BAR] + yours) + ([z] + tail))
  {
    hide Ed.Ed, CommandLine, DottedAll, LeadingDot;
    var sides := older + [BAR] + yours;
    DottedBar(older, yours);
    EdUndot(h + [a], sides, [z] + tail, rest);
    FiveParts(h, a, DottedAll(older), DottedAll(yours), z, tail);
  }

  lemma FiveParts(h: File, a: Line, older: File, yours: File, z: Line, tail: File)
    ensures h + ([a] + older + [BAR] + yours + [z]) + tail == (h + [a]) + (older + [BAR] + yours) + ([z] + tail)
  {
  }

  /** OLDFILE's lines and YOURFILE's, with the dots removed from just these. */
  lemma AfterWithOlder(h: File, older: seq<Line>, yours: seq<Line>, o: Options, tail: File, rest: seq<Line>)
    requires o.show2nd
    ensures Ed.Ed(AfterScript(true, |h|, older, yours, o) + rest, h + tail)
            == Ed.Ed(rest, h + AfterResult(true, older, yours, o, tail).value)
  {
    hide Ed.Ed, CommandLine, DottedAll, LeadingDot, Label, AfterScript;
    var a, z := Label("|||||||", o.name1), Label(">>>>>>>", o.name2);
    var dots := if LeadingDot(older) || LeadingDot(yours) then [CommandLine(|h| + 2, |h| + 2 + |older| + |yours|, Undot)] else [];
    TypedWithOlder(h, older, yours, o, tail, dots, rest);
    UndotBetween(h, a, older, yours, z, tail, rest);
    assert (h + [a]) + (older + [BAR] + yours) + ([z] + tail) == h + ([a] + older + [BAR] + yours + [z] + tail);
  }

  /** YOURFILE's lines alone: the command that removes dots goes on past them. */
  lemma AfterWithoutOlder(h: File, older: seq<Line>, yours: seq<Line>, o: Options, tail: File, rest: seq<Line>)
    requires !o.show2nd
    ensures Ed.Ed(AfterScript(true, |h|, older, yours, o) + rest, h + tail)
            == match AfterResult(true, older, yours, o, tail) case None => None case Some(after) => Ed.Ed(rest, h + after)
  {
    hide Ed.Ed, CommandLine, DottedAll, LeadingDot, Label, SubstituteAll, AnyMatches;
    var z := Label(">>>>>>>", o.name2);
    var text := [BAR] + DottedAll(yours) + [z];
    var dots := if LeadingDot(yours) then [CommandLine(|h| + 2, |h| + 2 + |older| + |yours|, Undot)] else [];
    TypedWithoutOlder(h, older, yours, o, tail, dots, rest);
    UndotDotted(yours);
    if !LeadingDot(yours) {
      assert [] + rest == rest;
      assert h + text + tail == h + AfterResult(true, older, yours, o, tail).value;
    } else if |older| > |tail| {
      EdPastEnd(|h| + 2, |h| + 2 + |older| + |yours|, Undot, h + text + tail, rest);
    } else {
      LabelIsText(">>>>>>>", o.name2);
      TooFar(h, older, yours, z, tail, rest);
      assert h + text + tail == (h + [BAR]) + (DottedAll(yours) + [z] + tail[..|older|]) + tail[|older|..] by {
        CutTail(h, DottedAll(yours), z, tail, |older|);
      }
    }
  }

  lemma CutTail(h: File, yours: File, z: Line, tail: File, n: nat)
    requires n <= |tail|
    ensures h + ([BAR] + yours + [z]) + tail == (h + [BAR]) + (yours + [z] + tail[..n]) + tail[n..]
  {
    assert tail == tail[..n] + tail[n..];
  }

  /** What has been typed before dots are removed. */
  lemma TypedWithoutOlder(h: File, older: seq<Line>, yours: seq<Line>, o: Options, tail: File, dots: seq<Line>, rest: seq<Line>)
    requires !o.show2nd
    requires dots == if LeadingDot(yours) then [CommandLine(|h| + 2, |h| + 2 + |older| + |yours|, Undot)] else []
    ensures Ed.Ed(AfterScript(true, |h|, older, yours, o) + rest, h + tail)
            == Ed.Ed(dots + rest, h + ([BAR] + DottedAll(yours) + [Label(">>>>>>>", o.name2)]) + tail)
  {
    hide Ed.Ed, CommandLine, DottedAll, LeadingDot, Label;
    var text := [BAR] + DottedAll(yours) + [Label(">>>>>>>", o.name2)];
    assert AfterMine(true, older, yours, o) == text;
    assert forall i :: 0 <= i < |text| ==> text[i] != DOT by {
      LabelIsText(">>>>>>>", o.name2);
      DottedIsText(yours);
      assert BAR[0] == '=';
    }
    EdAdd(h, tail, text, dots + rest);
    assert AfterScript(true, |h|, older, yours, o) + rest == [CommandLine(|h|, |h|, Add)] + text + [DOT] + (dots + rest);
  }

  lemma TooFar(h: File, older: seq<Line>, yours: seq<Line>, z: Line, tail: File, rest: seq<Line>)
    requires LeadingDot(yours) && |older| <= |tail| && !HasDot(z)
    ensures Ed.Ed([CommandLine(|h| + 2, |h| + 2 + |older| + |yours|, Undot)] + rest,
                  (h + [BAR]) + (DottedAll(yours) + [z] + tail[..|older|]) + tail[|older|..])
            == Ed.Ed(rest, h + ([BAR] + yours + [z] + (SubstituteAll(tail[..|older|], Undot) + tail[|older|..])))
  {
    hide Ed.Ed, CommandLine, DottedAll, LeadingDot, SubstituteAll, HasDot, AnyMatches;
    var mid := DottedAll(yours) + [z] + tail[..|older|];
    var after := SubstituteAll(tail[..|older|], Undot);
    DotsRemoved(yours, z, tail[..|older|]);
    EdSubstitute(h + [BAR], mid, tail[|older|..], Undot, rest);
    assert (h + [BAR]) + (yours + [z] + after) + tail[|older|..] == h + ([BAR] + yours + [z] + (after + tail[|older|..]));
  }

  lemma DotsRemoved(yours: seq<Line>, z: Line, more: seq<Line>)
    requires LeadingDot(yours) && !HasDot(z)
    ensures AnyMatches(DottedAll(yours) + [z] + more, Undot)
    ensures SubstituteAll(DottedAll(yours) + [z] + more, Undot) == yours + [z] + SubstituteAll(more, Undot)
  {
    hide DottedAll, SubstituteAll, LeadingDot;
    UndotDotted(yours);
    var i :| 0 <= i < |DottedAll(yours)| && Matches(DottedAll(yours)[i], Undot);
    assert Matches((DottedAll(yours) + [z] + more)[i], Undot);
    SubstituteJoin(DottedAll(yours) + [z], more);
    SubstituteJoin(DottedAll(yours), [z]);
    assert Substituted(z, Undot) == z;
    assert SubstituteAll([z], Undot) == [z];
  }

  lemma SubstituteJoin(a: seq<Line>, b: seq<Line>)
    ensures SubstituteAll(a + b, Undot) == SubstituteAll(a, Undot) + SubstituteAll(b, Undot)
  {
  }

  lemma AfterEffect(all: bool, h: File, older: seq<Line>, yours: seq<Line>, o: Options, tail: File, rest: seq<Line>)
    ensures Ed.Ed(AfterScript(all, |h|, older, yours, o) + rest, h + tail)
            == match AfterResult(all, older, yours, o, tail) case None => None case Some(after) => Ed.Ed(rest, h + after)
  {
    if all && o.show2nd {
      AfterWithOlder(h, older, yours, o, tail, rest);
    } else if all {
      AfterWithoutOlder(h, older, yours, o, tail, rest);
    } else {
      hide Ed.Ed, CommandLine, DottedAll, LeadingDot, Label;
      LabelIsText(">>>>>>>", o.name2);
      var text := [Label(">>>>>>>", o.name2)];
      EdAdd(h, tail, text, rest);
      assert AfterMine(all, older, yours, o) == text;
      assert AfterScript(all, |h|, older, yours, o) + rest == [CommandLine(|h|, |h|, Add)] + text + [DOT] + rest;
      assert h + text + tail == h + AfterResult(all, older, yours, o, tail).value;
    }
  }

  lemma BeforeEffect(all: bool, head: File, older: seq<Line>, o: Options, tail: File, rest: seq<Line>)
    ensures Ed.Ed(BeforeScript(all, |head| + 1, older, o) + rest, head + tail)
            == Ed.Ed(rest, head + BeforeResult(all, older, o) + tail)
  {
    if all {
      BeforeAll(head, older, o, tail, rest);
    } else {
      BeforeOlder(head, older, o, tail, rest);
    }
  }

  lemma BeforeAll(head: File, older: seq<Line>, o: Options, tail: File, rest: seq<Line>)
    ensures Ed.Ed(BeforeScript(true, |head| + 1, older, o) + rest, head + tail)
            == Ed.Ed(rest, head + BeforeResult(true, older, o) + tail)
  {
    hide Ed.Ed, CommandLine, DottedAll, LeadingDot, Label;
    var text := [Label("<<<<<<<", o.name0)];
    LabelIsText("<<<<<<<", o.name0);
    EdAdd(head, tail, text, rest);
    assert BeforeMine(true, older, o) == text && BeforeResult(true, older, o) == text;
    assert BeforeScript(true, |head| + 1, older, o) + rest == [CommandLine(|head|, |head|, Add)] + text + [DOT] + rest;
  }

  lemma BeforeOlder(head: File, older: seq<Line>, o: Options, tail: File, rest: seq<Line>)
    ensures Ed.Ed(BeforeScript(false, |head| + 1, older, o) + rest, head + tail)
            == Ed.Ed(rest, head + BeforeResult(false, older, o) + tail)
  {
    hide Ed.Ed, CommandLine, DottedAll, LeadingDot, Label;
    var a, text := Label("<<<<<<<", o.name1), BeforeMine(false, older, o);
    var dots := if LeadingDot(older) then [CommandLine(|head| + 2, |head| + 1 + |older|, Undot)] else [];
    assert forall i :: 0 <= i < |text| ==> text[i] != DOT by {
      LabelIsText("<<<<<<<", o.name1);
      DottedIsText(older);
      assert BAR[0] == '=';
    }
    EdAdd(head, tail, text, dots + rest);
    assert BeforeScript(false, |head| + 1, older, o) + rest == [CommandLine(|head|, |head|, Add)] + text + [DOT] + (dots + rest);
    EdUndot(head + [a], older, [BAR] + tail, rest);
    assert head + text + tail == (head + [a]) + DottedAll(older) + ([BAR] + tail);
    assert (head + [a]) + older + ([BAR] + tail) == head + BeforeResult(false, older, o) + tail;
  }

  /** The script for a conflict. */
  lemma ConflictEffect(all: bool, head: File, mine: File, older: seq<Line>, yours: seq<Line>, o: Options, tail: File, rest: seq<Line>)
    ensures Ed.Ed(ConflictScript(all, |head| + 1, |head| + |mine|, older, yours, o) + rest, head + mine + tail)
            == match ConflictResult(all, mine, older, yours, o, tail) case None => None case Some(r) => Ed.Ed(rest, head + r)
  {
    hide Ed.Ed, CommandLine, AfterScript, BeforeScript, AfterResult, BeforeResult;
    var before := BeforeScript(all, |head| + 1, older, o);
    AfterEffect(all, head + mine, older, yours, o, tail, before + rest);
    assert ConflictScript(all, |head| + 1, |head| + |mine|, older, yours, o) + rest
        == AfterScript(all, |head + mine|, older, yours, o) + (before + rest);
    match AfterResult(all, older, yours, o, tail)
    case None =>
    case Some(after) =>
      assert (head + mine) + after == head + (mine + after);
      BeforeEffect(all, head, older, o, mine + after, rest);
      assert head + BeforeResult(all, older, o) + (mine + after) == head + (BeforeResult(all, older, o) + mine + after);
  }
}
