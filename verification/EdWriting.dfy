/**
 Writing an ed script: the text that goes out, and the lines it is made of.
 */
module EdWriting {
  import opened Text
  import opened EdUtility

  class EdWriter {
    var output: string
    ghost var script: seq<Line>

    ghost predicate Valid()
      reads this
    {
      output == Flat(script)
    }

    constructor ()
      ensures Valid() && output == "" && script == []
    {
      output := "";
      script := [];
    }

    method PutLine(line: Line)
      requires Valid()
      modifies this
      ensures Valid() && script == old(script) + [line]
    {
      FlatJoin(script, [line]);
      assert [line][1..] == [];
      assert Flat([line]) == line + Flat([]) == line;
      output := output + line;
      script := script + [line];
    }

    method PutCommand(lo: nat, hi: nat, verb: Verb)
      requires Valid()
      modifies this
      ensures Valid() && script == old(script) + [CommandLine(lo, hi, verb)]
    {
      if lo == hi {
        PutLine(Decimal(hi) + VerbText(verb));
      } else {
        PutLine(Decimal(lo) + "," + Decimal(hi) + VerbText(verb));
      }
    }

    lemma ValidMeans()
      requires Valid()
      ensures output == Flat(script)
    {
    }
  }
}
