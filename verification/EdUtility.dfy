/**
 The part of the ed utility that the scripts need: append, change, delete, two
 substitutions, write and quit, as in POSIX, section "Commands in ed".

 A script is read line by line: a command line with its addresses in decimal, and after
 `a` and `c` the text, up to a line that holds only a dot.
 */
module EdUtility {
  import opened Wrappers
  import opened Text

  /** `Undot` removes a leading dot, `Single` makes one leading dot of two. */
  datatype Verb = Add | Change | Delete | Undot | Single

  datatype Command = Edit(lo: nat, hi: nat, verb: Verb) | Write | Quit

  const DOT: Line := ".\n"

  // ----- Command lines

  function Digit(n: nat): char
    requires n < 10
  {
    "0123456789"[n]
  }

  predicate IsDigit(c: char) {
    '0' <= c <= '9'
  }

  function Decimal(n: nat): string {
    if n < 10 then [Digit(n)] else Decimal(n / 10) + [Digit(n % 10)]
  }

  function VerbText(verb: Verb): string {
    match verb
    case Add => "a\n"
    case Change => "c\n"
    case Delete => "d\n"
    case Undot => "s/^\\.//\n"
    case Single => "s/^\\.\\././\n"
  }

  /** One address if both are the same, as all the printing code has it. */
  function Addresses(lo: nat, hi: nat): string {
    if lo == hi then Decimal(hi) else Decimal(lo) + "," + Decimal(hi)
  }

  function CommandLine(lo: nat, hi: nat, verb: Verb): Line {
    Addresses(lo, hi) + VerbText(verb)
  }

  function Number(s: string, soFar: nat): (nat, string) {
    if s != [] && IsDigit(s[0]) then Number(s[1..], 10 * soFar + (s[0] as int - '0' as int)) else (soFar, s)
  }

  function VerbOf(s: string): Option<Verb> {
    if s == VerbText(Add) then Some(Add)
    else if s == VerbText(Change) then Some(Change)
    else if s == VerbText(Delete) then Some(Delete)
    else if s == VerbText(Undot) then Some(Undot)
    else if s == VerbText(Single) then Some(Single)
    else None
  }

  function Parse(line: Line): Option<Command> {
    if line == "w\n" then Some(Write)
    else if line == "q\n" then Some(Quit)
    else if line == [] || !IsDigit(line[0]) then None
    else
      var (lo, rest) := Number(line, 0);
      var (hi, verb) := if rest != [] && rest[0] == ',' then Number(rest[1..], 0) else (lo, rest);
      match VerbOf(verb)
      case None => None
      case Some(v) => Some(Edit(lo, hi, v))
  }

  lemma {:induction false} NumberOfDecimal(n: nat, rest: string)
    ensures Decimal(n) != [] && IsDigit(Decimal(n)[0])
    ensures Number(Decimal(n) + rest, 0) == Number(rest, n)
  {
    if n < 10 {
      assert (Decimal(n) + rest)[1..] == rest;
    } else {
      var d := [Digit(n % 10)];
      NumberOfDecimal(n / 10, d + rest);
      assert Decimal(n) + rest == Decimal(n / 10) + (d + rest);
      assert (d + rest)[1..] == rest;
    }
  }

  lemma VerbOfText(verb: Verb)
    ensures var v := VerbText(verb); VerbOf(v) == Some(verb) && v != [] && !IsDigit(v[0]) && v[0] != ','
  {
    assert VerbText(Undot)[1] == '/' && VerbText(Single)[5] == '\\' && VerbText(Undot)[5] == '/';
  }

  lemma NumberStops(s: string, n: nat)
    requires s != [] && !IsDigit(s[0])
    ensures Number(s, n) == (n, s)
  {
  }

  lemma AddressesRead(lo: nat, hi: nat, v: string)
    requires v != [] && !IsDigit(v[0]) && v[0] != ','
    ensures Addresses(lo, hi) != [] && IsDigit(Addresses(lo, hi)[0])
    ensures var (n, rest) := Number(Addresses(lo, hi) + v, 0);
            n == lo && if rest != [] && rest[0] == ',' then Number(rest[1..], 0) == (hi, v) else lo == hi && rest == v
  {
    hide Number, Decimal;
    NumberOfDecimal(hi, v);
    NumberStops(v, hi);
    if lo != hi {
      var rest := "," + Decimal(hi) + v;
      NumberStops(rest, lo);
      assert Addresses(lo, hi) + v == Decimal(lo) + rest;
      NumberOfDecimal(lo, rest);
      assert rest[1..] == Decimal(hi) + v;
    }
  }

  /** What is printed as a command is read back as that command. */
  lemma ParseCommandLine(lo: nat, hi: nat, verb: Verb)
    ensures Parse(CommandLine(lo, hi, verb)) == Some(Edit(lo, hi, verb))
  {
    hide Number, Decimal, Addresses, VerbOf, VerbText;
    VerbOfText(verb);
    AddressesRead(lo, hi, VerbText(verb));
    var line := CommandLine(lo, hi, verb);
    assert line[0] == Addresses(lo, hi)[0];
    assert "w\n"[0] == 'w' && "q\n"[0] == 'q';
  }

  // ----- Running a script

  /** The number of lines before the first that holds only a dot. */
  ghost function TextLength(script: seq<Line>): (n: nat)
    ensures n <= |script|
  {
    if script == [] || script[0] == DOT then 0 else 1 + TextLength(script[1..])
  }

  /** Lines are counted from 1; only `a` may come after line 0. */
  ghost predicate Addressed(lo: nat, hi: nat, verb: Verb, size: nat) {
    (if verb.Add? then 0 else 1) <= lo <= hi <= size
  }

  ghost predicate Matches(line: Line, verb: Verb) {
    && line != [] && line[0] == '.'
    && (verb.Single? ==> |line| > 1 && line[1] == '.')
  }

  ghost function Substituted(line: Line, verb: Verb): Line {
    if Matches(line, verb) then line[1..] else line
  }

  ghost function SubstituteAll(lines: seq<Line>, verb: Verb): (r: seq<Line>)
    ensures |r| == |lines| && forall i :: 0 <= i < |lines| ==> r[i] == Substituted(lines[i], verb)
  {
    seq(|lines|, i requires 0 <= i < |lines| => Substituted(lines[i], verb))
  }

  ghost predicate AnyMatches(lines: seq<Line>, verb: Verb) {
    exists i :: 0 <= i < |lines| && Matches(lines[i], verb)
  }

  /** The buffer after one substitution, which fails if no addressed line matches. */
  ghost function Substitute(buf: File, lo: nat, hi: nat, verb: Verb): Option<File>
    requires 1 <= lo <= hi <= |buf|
  {
    if AnyMatches(buf[lo - 1..hi], verb) then Some(buf[..lo - 1] + SubstituteAll(buf[lo - 1..hi], verb) + buf[hi..])
    else None
  }

  /** The buffer after the script, or None after an error. */
  ghost function Ed(script: seq<Line>, buf: File): Option<File>
    decreases |script|
  {
    if script == [] then Some(buf)
    else
      match Parse(script[0])
      case None => None
      case Some(Write) => Ed(script[1..], buf)
      case Some(Quit) => Some(buf)
      case Some(Edit(lo, hi, verb)) =>
        if !Addressed(lo, hi, verb, |buf|) then None
        else if verb.Add? || verb.Change? then
          var n := TextLength(script[1..]);
          if n == |script[1..]| then None
          else Ed(script[n + 2..], buf[..if verb.Add? then hi else lo - 1] + script[1..n + 1] + buf[hi..])
        else if verb.Delete? then Ed(script[1..], buf[..lo - 1] + buf[hi..])
        else
          match Substitute(buf, lo, hi, verb)
          case None => None
          case Some(after) => Ed(script[1..], after)
  }

  /** Run on text: the script and the file cut into lines. */
  ghost function Run(script: string, file: string): Option<string> {
    match Ed(Lines(script), Lines(file))
    case None => None
    case Some(buf) => Some(Flat(buf))
  }

  lemma {:induction false} TextBeforeDot(text: seq<Line>, rest: seq<Line>)
    requires forall i :: 0 <= i < |text| ==> text[i] != DOT
    ensures TextLength(text + [DOT] + rest) == |text|
  {
    var script := text + [DOT] + rest;
    if text == [] {
      assert script[0] == DOT;
    } else {
      assert script[0] == text[0] && script[1..] == text[1..] + [DOT] + rest;
      TextBeforeDot(text[1..], rest);
    }
  }

  lemma EdInput(lo: nat, hi: nat, verb: Verb, text: seq<Line>, rest: seq<Line>, buf: File)
    requires verb.Add? || verb.Change?
    requires Addressed(lo, hi, verb, |buf|)
    requires forall i :: 0 <= i < |text| ==> text[i] != DOT
    ensures Ed([CommandLine(lo, hi, verb)] + text + [DOT] + rest, buf)
            == Ed(rest, buf[..if verb.Add? then hi else lo - 1] + text + buf[hi..])
  {
    hide CommandLine, Parse, TextLength;
    var script := [CommandLine(lo, hi, verb)] + text + [DOT] + rest;
    ParseCommandLine(lo, hi, verb);
    assert script[1..] == text + [DOT] + rest && script[0] == CommandLine(lo, hi, verb);
    TextBeforeDot(text, rest);
    assert script[|text| + 2..] == rest && script[1..|text| + 1] == text;
  }

  /** Append after the lines of head. */
  lemma EdAdd(head: File, tail: File, text: seq<Line>, rest: seq<Line>)
    requires forall i :: 0 <= i < |text| ==> text[i] != DOT
    ensures Ed([CommandLine(|head|, |head|, Add)] + text + [DOT] + rest, head + tail) == Ed(rest, head + text + tail)
  {
    hide Ed, CommandLine;
    EdInput(|head|, |head|, Add, text, rest, head + tail);
    assert (head + tail)[..|head|] == head && (head + tail)[|head|..] == tail;
  }

  lemma EdChange(head: File, mid: File, tail: File, text: seq<Line>, rest: seq<Line>)
    requires mid != [] && forall i :: 0 <= i < |text| ==> text[i] != DOT
    ensures Ed([CommandLine(|head| + 1, |head| + |mid|, Change)] + text + [DOT] + rest, head + mid + tail)
            == Ed(rest, head + text + tail)
  {
    hide Ed, CommandLine;
    var buf := head + mid + tail;
    EdInput(|head| + 1, |head| + |mid|, Change, text, rest, buf);
    assert buf[..|head|] == head && buf[|head| + |mid|..] == tail;
  }

  lemma EdDelete(head: File, mid: File, tail: File, rest: seq<Line>)
    requires mid != []
    ensures Ed([CommandLine(|head| + 1, |head| + |mid|, Delete)] + rest, head + mid + tail) == Ed(rest, head + tail)
  {
    var buf := head + mid + tail;
    var script := [CommandLine(|head| + 1, |head| + |mid|, Delete)] + rest;
    ParseCommandLine(|head| + 1, |head| + |mid|, Delete);
    assert script[0] == CommandLine(|head| + 1, |head| + |mid|, Delete) && script[1..] == rest;
    assert buf[..|head|] == head && buf[|head| + |mid|..] == tail;
    hide CommandLine, Parse, TextLength;
  }

  lemma EdSubstitute(head: File, mid: File, tail: File, verb: Verb, rest: seq<Line>)
    requires (verb.Undot? || verb.Single?) && AnyMatches(mid, verb)
    ensures Ed([CommandLine(|head| + 1, |head| + |mid|, verb)] + rest, head + mid + tail)
            == Ed(rest, head + SubstituteAll(mid, verb) + tail)
  {
    hide CommandLine, Parse, TextLength, Matches, SubstituteAll;
    var buf := head + mid + tail;
    var script := [CommandLine(|head| + 1, |head| + |mid|, verb)] + rest;
    ParseCommandLine(|head| + 1, |head| + |mid|, verb);
    assert script[0] == CommandLine(|head| + 1, |head| + |mid|, verb) && script[1..] == rest;
    assert buf[..|head|] == head && buf[|head| + |mid|..] == tail && buf[|head|..|head| + |mid|] == mid;
  }

  /** An address past the end is an error. */
  lemma EdPastEnd(lo: nat, hi: nat, verb: Verb, buf: File, rest: seq<Line>)
    requires |buf| < hi
    ensures Ed([CommandLine(lo, hi, verb)] + rest, buf) == None
  {
    ParseCommandLine(lo, hi, verb);
    hide CommandLine, Parse, TextLength;
  }

  // ----- Command lines are lines

  lemma {:induction false} DecimalIsDigits(n: nat)
    ensures Decimal(n) != [] && forall i :: 0 <= i < |Decimal(n)| ==> IsDigit(Decimal(n)[i])
  {
    if n >= 10 {
      DecimalIsDigits(n / 10);
    }
  }

  lemma VerbIsLine(verb: Verb)
    ensures IsLine(VerbText(verb)) && Ended(VerbText(verb))
  {
    match verb
    case Add =>
    case Change =>
    case Delete =>
    case Undot => assert VerbText(verb) == ['s', '/', '^', '\\', '.', '/', '/', '\n'];
    case Single => assert VerbText(verb) == ['s', '/', '^', '\\', '.', '\\', '.', '/', '.', '/', '\n'];
  }

  lemma CommandLineIsLine(lo: nat, hi: nat, verb: Verb)
    ensures IsLine(CommandLine(lo, hi, verb)) && Ended(CommandLine(lo, hi, verb))
  {
    DecimalIsDigits(lo);
    DecimalIsDigits(hi);
    VerbIsLine(verb);
    hide VerbText, Decimal;
    var s, v := Addresses(lo, hi), VerbText(verb);
    assert forall i :: 0 <= i < |s| ==> s[i] != '\n';
    assert (s + v)[|s + v| - 1] == v[|v| - 1];
  }
}
