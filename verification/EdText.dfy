/**
 `diff_2_files` in the ed style: from two texts to a script for ed.

 Ed puts the newline that is missing at the end of a file, and in this style the differ
 does so too and does not tell it from one that is there.
 */
module EdText {
  import opened Wrappers
  import opened Text
  import opened IdenticalEnds
  import opened CodedLines
  import opened FewestLines
  import opened DiffText
  import opened EdScript
  import opened Diag
  import Ed = EdUtility

  /** The text, with a newline at its end unless it is empty. */
  function Completed(text: seq<char>): seq<char> {
    if text != [] && text[|text| - 1] != '\n' then text + "\n" else text
  }

  /** The lines of a text are those of its beginning, its middle and its end, and make up the text. */
  lemma WholeParts(t: seq<char>, p: nat, s: nat)
    requires WholeLines(t) && p <= s <= |t| && LineStart(t, p) && LineStart(t, s)
    ensures var head, middle, tail := Head(t, p, false), Middle(t, p, s, false), Tail(t, s, false);
            && AllEnded(head) && AllEnded(middle) && AllEnded(tail)
            && Flat(head + middle + tail) == t
  {
    hide Lines, AllEnded, LineStart, Flat;
    RealParts(t, t, false, p, s);
    WholeLinesFlat(t);
    PartsAreWhole(t, p, s);
    WholeLinesFlat(t[..p]);
    WholeLinesFlat(t[p..s]);
    EndIsWhole(t, s);
    WholeLinesFlat(t[s..]);
  }

  lemma EndIsWhole(t: seq<char>, s: nat)
    requires WholeLines(t) && s <= |t|
    ensures WholeLines(t[s..])
  {
    assert s < |t| ==> t[s..][|t| - s - 1] == t[|t| - 1];
  }

  /** From two texts to a script: running ed with it on the first gives the second, with newlines at their ends. */
  method EdTexts(text0: seq<char>, text1: seq<char>, horizonLines: nat, nbuckets: nat, alloc: nat,
                 noDiscards: bool, heuristic: bool, inhibit: bool)
    returns (output: string)
    requires 0 < nbuckets && 0 < alloc && |text0| + |text1| + 5 < INT_MAX
    ensures Ed.Run(output, Completed(text0)) == Some(Completed(text1))
  {
    hide Lines, CodedExactly, Coded, IsPrefix, IsSuffix, Ed.Run, Flat, AllEnded;
    var buffer0, n0, missing0 := Prepare(text0);
    var buffer1, n1, missing1 := Prepare(text1);
    var p, s0, s1 := FindIdenticalEnds(buffer0, n0, missing0, buffer1, n1, missing1, false, horizonLines);
    var t0, t1 := buffer0[..n0], buffer1[..n1];
    assert t0 == Completed(text0) && t1 == Completed(text1);
    var codes0, codes1, equivMax := HashBoth(nbuckets, alloc, t0, false, t1, false, p, s0, s1);
    EndsAreLines(t0, false, t1, false, p, s0, s1);
    WholeParts(t0, p, s0);
    WholeParts(t1, p, s1);
    var head, a, b, tail := Head(t0, p, false), Middle(t0, p, s0, false), Middle(t1, p, s1, false), Tail(t0, s0, false);
    Exact(a, codes0, b, codes1);
    output := EdDiff(head, a, b, tail, codes0, codes1, equivMax, noDiscards, heuristic, inhibit);
  }
}
