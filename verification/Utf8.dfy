/**
 `ucs22utf8` and `utf82ucs2`: wide strings to bytes and back, in the forms of up to six
 bytes of section 2 of RFC 2279.

 Characters are 32-bit numbers.  Shifts to the right are divisions here, masks of low bits
 are remainders, and bits that are set next to others are added.
 */
module Utf8 {
  import opened Wrappers

  type Octet = b: int | 0 <= b < 0x100
  type Wide = c: int | 0 <= c < 0x1_0000_0000

  const QUESTION: Octet := 0x3f
  const END_OF_CODES := 0x8000_0000

  // ----- What the forms are

  /** The first character that needs more bytes than this. */
  function Limit(size: nat): int {
    if size <= 1 then 0x80 else if size == 2 then 0x800 else if size == 3 then 0x10000
    else if size == 4 then 0x20_0000 else if size == 5 then 0x400_0000 else END_OF_CODES
  }

  /** The first of the first bytes of forms of a size, and the first beyond them. */
  function Mark(size: nat): int {
    if size <= 1 then 0 else if size == 2 then 0xc0 else if size == 3 then 0xe0
    else if size == 4 then 0xf0 else if size == 5 then 0xf8 else 0xfc
  }

  function MarkEnd(size: nat): int {
    if size <= 1 then 0x80 else if size < 6 then Mark(size + 1) else 0xfe
  }

  /** Six more bits from each byte. */
  ghost function Bits(lead: int, trail: seq<Octet>): int
    decreases |trail|
  {
    if trail == [] then lead else Bits(64 * lead + (trail[0] as int - 0x80), trail[1..])
  }

  /** The shortest form of a character. */
  ghost predicate IsForm(form: seq<Octet>, c: int) {
    && 1 <= |form| <= 6 && c < Limit(|form|) && (|form| > 1 ==> Limit(|form| - 1) <= c)
    && Mark(|form|) <= form[0] < MarkEnd(|form|)
    && (forall i :: 1 <= i < |form| ==> 0x80 <= form[i] < 0xc0)
    && Bits(form[0] as int - Mark(|form|), form[1..]) == c
  }

  // ----- The encoder

  function Trail(c: int): Octet {
    0x80 + c % 0x40
  }

  /** What one character is written as; one that has no form becomes a question mark. */
  function EncodeChar(c: Wide): (form: seq<Octet>) {
    if c < 0x80 then [c]
    else if c < 0x800 then [0xc0 + c / 0x40, Trail(c)]
    else if c < 0x1_0000 then [0xe0 + c / 0x1000, Trail(c / 0x40), Trail(c)]
    else if c < 0x20_0000 then [0xf0 + c / 0x4_0000, Trail(c / 0x1000), Trail(c / 0x40), Trail(c)]
    else if c < 0x400_0000 then [0xf8 + c / 0x100_0000, Trail(c / 0x4_0000), Trail(c / 0x1000), Trail(c / 0x40), Trail(c)]
    else if c < 0x8000_0000 then
      [0xfc + c / 0x4000_0000, Trail(c / 0x100_0000), Trail(c / 0x4_0000), Trail(c / 0x1000), Trail(c / 0x40), Trail(c)]
    else [QUESTION]
  }

  /** The last bytes of a form, for the lowest bits of a character. */
  ghost function Trails(c: int, n: nat): (trail: seq<Octet>)
    requires 0 <= c
    ensures |trail| == n && forall i :: 0 <= i < n ==> 0x80 <= trail[i] < 0xc0
  {
    if n == 0 then [] else Trails(c / 0x40, n - 1) + [Trail(c)]
  }

  lemma {:induction false} BitsJoin(lead: int, trail: seq<Octet>, last: Octet)
    ensures Bits(lead, trail + [last]) == 64 * Bits(lead, trail) + (last as int - 0x80)
    decreases |trail|
  {
    if trail == [] {
      assert (trail + [last])[1..] == [];
    } else {
      assert (trail + [last])[1..] == trail[1..] + [last];
      BitsJoin(64 * lead + (trail[0] as int - 0x80), trail[1..], last);
    }
  }

  /** What the first byte lacks of a character is in the bytes after it. */
  lemma {:induction false} BitsOfTrails(c: int, n: nat, lead: int)
    requires 0 <= c && lead == High(c, n)
    ensures Bits(lead, Trails(c, n)) == c
    decreases n
  {
    if n > 0 {
      BitsOfTrails(c / 0x40, n - 1, lead);
      BitsJoin(lead, Trails(c / 0x40, n - 1), Trail(c));
    }
  }

  /** All but the lowest bits. */
  ghost function High(c: int, n: nat): int
    decreases n
  {
    if n == 0 then c else High(c / 0x40, n - 1)
  }

  lemma Highs(c: int)
    requires 0 <= c
    ensures High(c, 1) == c / 0x40 && High(c, 2) == c / 0x1000 && High(c, 3) == c / 0x4_0000
    ensures High(c, 4) == c / 0x100_0000 && High(c, 5) == c / 0x4000_0000
  {
    assert c / 0x40 / 0x40 == c / 0x1000;
    assert c / 0x1000 / 0x40 == c / 0x4_0000;
    assert c / 0x4_0000 / 0x40 == c / 0x100_0000;
    assert c / 0x100_0000 / 0x40 == c / 0x4000_0000;
    assert High(c, 2) == High(c / 0x40, 1) == High(c / 0x1000, 0);
    assert High(c, 3) == High(c / 0x40, 2) == High(c / 0x1000, 1) == High(c / 0x4_0000, 0);
    assert High(c, 4) == High(c / 0x40, 3) == High(c / 0x1000, 2) == High(c / 0x4_0000, 1) == High(c / 0x100_0000, 0);
    assert High(c, 5) == High(c / 0x40, 4) == High(c / 0x1000, 3) == High(c / 0x4_0000, 2) == High(c / 0x100_0000, 1)
        == High(c / 0x4000_0000, 0);
  }

  lemma Trails2(c: int)
    requires 0 <= c
    ensures Trails(c, 1) == [Trail(c)] && Trails(c, 2) == [Trail(c / 0x40), Trail(c)]
  {
    assert Trails(c, 1) == Trails(c / 0x40, 0) + [Trail(c)];
    assert Trails(c / 0x40, 1) == Trails(c / 0x40 / 0x40, 0) + [Trail(c / 0x40)];
    assert Trails(c, 2) == Trails(c / 0x40, 1) + [Trail(c)];
  }

  lemma Trails4(c: int)
    requires 0 <= c
    ensures Trails(c, 3) == [Trail(c / 0x1000), Trail(c / 0x40), Trail(c)]
    ensures Trails(c, 4) == [Trail(c / 0x4_0000), Trail(c / 0x1000), Trail(c / 0x40), Trail(c)]
  {
    assert c / 0x40 / 0x40 == c / 0x1000 && c / 0x40 / 0x1000 == c / 0x4_0000;
    Trails2(c / 0x40);
    Trails2(c / 0x1000);
    hide Trail;
    assert Trails(c, 3) == Trails(c / 0x40, 2) + [Trail(c)];
    assert Trails(c / 0x40, 3) == Trails(c / 0x40 / 0x40, 2) + [Trail(c / 0x40)];
    assert Trails(c, 4) == Trails(c / 0x40, 3) + [Trail(c)];
    assert c / 0x1000 / 0x40 == c / 0x4_0000;
  }

  lemma Trails5(c: int)
    requires 0 <= c
    ensures Trails(c, 5) == [Trail(c / 0x100_0000), Trail(c / 0x4_0000), Trail(c / 0x1000), Trail(c / 0x40), Trail(c)]
  {
    Trails4(c / 0x40);
    hide Trail;
    assert c / 0x40 / 0x40 == c / 0x1000 && c / 0x40 / 0x1000 == c / 0x4_0000 && c / 0x40 / 0x4_0000 == c / 0x100_0000;
    assert Trails(c, 5) == Trails(c / 0x40, 4) + [Trail(c)];
  }

  /** The encoder writes the shortest form of every character that has one. */
  lemma EncodesForm(c: Wide)
    requires c < END_OF_CODES
    ensures IsForm(EncodeChar(c), c)
  {
    hide Trail, Trails, High, Bits;
    var form := EncodeChar(c);
    var n := |form| - 1;
    Trails2(c);
    Trails4(c);
    Trails5(c);
    Highs(c);
    FirstByte(c);
    assert form[1..] == Trails(c, n);
    BitsOfTrails(c, n, form[0] as int - Mark(n + 1));
    assert forall i :: 1 <= i < |form| ==> form[i] == form[1..][i - 1];
  }

  lemma FirstByte(c: Wide)
    requires c < END_OF_CODES
    ensures var form := EncodeChar(c);
            && 1 <= |form| <= 6 && c < Limit(|form|) && (|form| > 1 ==> Limit(|form| - 1) <= c)
            && Mark(|form|) <= form[0] < MarkEnd(|form|)
            && form[0] as int - Mark(|form|) == High(c, |form| - 1)
  {
    Highs(c);
    hide Trail;
    assert High(c, 0) == c;
  }

  // ----- The decoder

  /** How many bytes the decoder takes for a character, by the first of them. */
  function FormSize(lead: Octet): nat {
    if lead < 0x80 then 1 else if lead < 0xe0 then 2 else if lead < 0xf0 then 3
    else if lead < 0xf8 then 4 else if lead < 0xfc then 5 else if lead < 0xfe then 6 else 1
  }

  /** The character at the beginning of the bytes. */
  function DecodeChar(p: seq<Octet>): Wide
    requires p != [] && FormSize(p[0]) <= |p|
  {
    if p[0] < 0x80 then p[0]
    else if p[0] < 0xe0 then (p[0] % 0x40) * 0x40 + p[1] % 0x40
    else if p[0] < 0xf0 then (p[0] % 0x20) * 0x1000 + (p[1] % 0x40) * 0x40 + p[2] % 0x40
    else if p[0] < 0xf8 then (p[0] % 0x10) * 0x4_0000 + (p[1] % 0x40) * 0x1000 + (p[2] % 0x40) * 0x40 + p[3] % 0x40
    else if p[0] < 0xfc then
      (p[0] % 0x08) * 0x100_0000 + (p[1] % 0x40) * 0x4_0000 + (p[2] % 0x40) * 0x1000 + (p[3] % 0x40) * 0x40 + p[4] % 0x40
    else if p[0] < 0xfe then
      (p[0] % 0x04) * 0x4000_0000 + (p[1] % 0x40) * 0x100_0000 + (p[2] % 0x40) * 0x4_0000 + (p[3] % 0x40) * 0x1000
      + (p[4] % 0x40) * 0x40 + p[5] % 0x40
    else QUESTION
  }

  lemma BitsOf(lead: int, t: seq<Octet>, k: nat)
    requires k < |t|
    ensures Bits(lead, t[k..]) == Bits(64 * lead + (t[k] as int - 0x80), t[k + 1..])
  {
    assert t[k..][0] == t[k] && t[k..][1..] == t[k + 1..];
  }

  /** The sum that a form stands for, as the decoder adds it up. */
  ghost function Sum(lead: int, t: seq<Octet>): int
    requires 1 <= |t| <= 6
  {
    var a, b, c, d, e := Six(t, 1), Six(t, 2), Six(t, 3), Six(t, 4), Six(t, 5);
    if |t| == 1 then lead
    else if |t| == 2 then 0x40 * lead + a
    else if |t| == 3 then 0x1000 * lead + 0x40 * a + b
    else if |t| == 4 then 0x4_0000 * lead + 0x1000 * a + 0x40 * b + c
    else if |t| == 5 then 0x100_0000 * lead + 0x4_0000 * a + 0x1000 * b + 0x40 * c + d
    else 0x4000_0000 * lead + 0x100_0000 * a + 0x4_0000 * b + 0x1000 * c + 0x40 * d + e
  }

  ghost function Six(t: seq<Octet>, k: nat): int {
    if k < |t| then t[k] as int - 0x80 else 0
  }

  lemma BitsIsSum(lead: int, t: seq<Octet>)
    requires 1 <= |t| <= 6
    ensures Bits(lead, t[1..]) == Sum(lead, t)
  {
    var n := |t|;
    assert t[n..] == [] && forall x :: Bits(x, []) == x;
    hide Bits;
    if n > 1 { BitsOf(lead, t, 1); }
    if n > 2 { BitsOf(0x40 * lead + Six(t, 1), t, 2); }
    if n > 3 { BitsOf(0x1000 * lead + 0x40 * Six(t, 1) + Six(t, 2), t, 3); }
    if n > 4 { BitsOf(0x4_0000 * lead + 0x1000 * Six(t, 1) + 0x40 * Six(t, 2) + Six(t, 3), t, 4); }
    if n > 5 { BitsOf(0x100_0000 * lead + 0x4_0000 * Six(t, 1) + 0x1000 * Six(t, 2) + 0x40 * Six(t, 3) + Six(t, 4), t, 5); }
  }

  /** What the decoder adds up, if the bytes are a form. */
  lemma DecodeIsSum(form: seq<Octet>, rest: seq<Octet>)
    requires 1 <= |form| <= 6 && Mark(|form|) <= form[0] < MarkEnd(|form|)
    requires forall i :: 1 <= i < |form| ==> 0x80 <= form[i] < 0xc0
    ensures FormSize(form[0]) == |form| && DecodeChar(form + rest) == Sum(form[0] as int - Mark(|form|), form)
  {
    var p := form + rest;
    assert forall i :: 0 <= i < |form| ==> p[i] == form[i];
    forall i | 1 <= i < |form|
      ensures p[i] % 0x40 == Six(form, i)
    {
      assert form[i] as int - 0x80 < 0x40;
    }
    hide Six;
  }

  /** The decoder takes just the bytes of a form, and gives the character it stands for. */
  lemma DecodesForm(form: seq<Octet>, c: int, rest: seq<Octet>)
    requires IsForm(form, c)
    ensures FormSize(form[0]) == |form| && DecodeChar(form + rest) == c
  {
    hide DecodeChar, Sum, FormSize;
    DecodeIsSum(form, rest);
    BitsIsSum(form[0] as int - Mark(|form|), form);
  }

  /** The bits determine the first byte and the bytes after it. */
  lemma {:induction false} BitsTell(lead: int, t: seq<Octet>, lead': int, t': seq<Octet>)
    requires |t| == |t'| && Bits(lead, t) == Bits(lead', t')
    requires forall i :: 0 <= i < |t| ==> 0x80 <= t[i] < 0xc0 && 0x80 <= t'[i] < 0xc0
    ensures lead == lead' && t == t'
    decreases |t|
  {
    if t != [] {
      var n := |t| - 1;
      assert t == t[..n] + [t[n]] && t' == t'[..n] + [t'[n]];
      BitsJoin(lead, t[..n], t[n]);
      BitsJoin(lead', t'[..n], t'[n]);
      BitsTell(lead, t[..n], lead', t'[..n]);
    }
  }

  /** A character has only one form, so what the encoder writes is the only one. */
  lemma FormIsUnique(form: seq<Octet>, c: Wide)
    requires IsForm(form, c)
    ensures form == EncodeChar(c)
  {
    var other := EncodeChar(c);
    EncodesForm(c);
    assert |form| == |other|;
    hide Bits;
    assert forall i :: 0 <= i < |form| - 1 ==> form[1..][i] == form[i + 1] && other[1..][i] == other[i + 1];
    BitsTell(form[0] as int - Mark(|form|), form[1..], other[0] as int - Mark(|other|), other[1..]);
    assert form == [form[0]] + form[1..] && other == [other[0]] + other[1..];
  }

  // ----- Strings

  ghost function Encode(s: seq<Wide>): seq<Octet> {
    if s == [] then [] else EncodeChar(s[0]) + Encode(s[1..])
  }

  /** None if the bytes end within a form. */
  ghost function Decode(p: seq<Octet>): Option<seq<Wide>>
    decreases |p|
  {
    if p == [] then Some([])
    else if FormSize(p[0]) > |p| then None
    else
      match Decode(p[FormSize(p[0])..])
      case None => None
      case Some(rest) => Some([DecodeChar(p)] + rest)
  }

  /** What is left of a character that has no form. */
  function Shown(c: Wide): Wide {
    if c < END_OF_CODES then c else QUESTION
  }

  ghost function ShownAll(s: seq<Wide>): seq<Wide> {
    if s == [] then [] else [Shown(s[0])] + ShownAll(s[1..])
  }

  /** Decoding the first character of an encoded string. */
  lemma DecodesFirst(c: Wide, rest: seq<Octet>)
    ensures var p := EncodeChar(c) + rest;
            && p != [] && FormSize(p[0]) == |EncodeChar(c)| && p[FormSize(p[0])..] == rest && DecodeChar(p) == Shown(c)
  {
    if c < END_OF_CODES {
      EncodesForm(c);
      hide IsForm, EncodeChar, DecodeChar;
      DecodesForm(EncodeChar(c), c, rest);
      assert IsForm(EncodeChar(c), c) ==> EncodeChar(c) != [] by {
        FormHasBytes(EncodeChar(c), c);
      }
    }
  }

  lemma FormHasBytes(form: seq<Octet>, c: int)
    ensures IsForm(form, c) ==> form != []
  {
  }

  /** Decoding what was encoded gives the string, but for characters that have no form. */
  lemma {:induction false} DecodesEncoded(s: seq<Wide>)
    ensures Decode(Encode(s)) == Some(ShownAll(s))
    decreases |s|
  {
    if s != [] {
      DecodesFirst(s[0], Encode(s[1..]));
      hide DecodeChar, EncodeChar, FormSize, Shown;
      DecodesEncoded(s[1..]);
    }
  }

  lemma {:induction false} ShownIsSame(s: seq<Wide>)
    ensures ShownAll(s) == s <==> forall i :: 0 <= i < |s| ==> s[i] < END_OF_CODES
    decreases |s|
  {
    if s != [] {
      ShownIsSame(s[1..]);
      assert ShownAll(s)[0] == Shown(s[0]) && ShownAll(s)[1..] == ShownAll(s[1..]);
      assert s == [s[0]] + s[1..];
      assert forall i :: 0 < i < |s| ==> s[i] == s[1..][i - 1];
      assert forall i :: 0 <= i < |s| - 1 ==> s[1..][i] == s[i + 1];
    }
  }

  /** The round trip gives back exactly the strings whose characters all have forms. */
  lemma RoundTrip(s: seq<Wide>)
    ensures Decode(Encode(s)) == Some(s) <==> forall i :: 0 <= i < |s| ==> s[i] < END_OF_CODES
  {
    hide Decode, Encode, ShownAll;
    DecodesEncoded(s);
    ShownIsSame(s);
  }

  /** No byte of an encoded string is the one that ends strings. */
  lemma {:induction false} NoEndInside(s: seq<Wide>)
    requires 0 !in s
    ensures 0 !in Encode(s)
    decreases |s|
  {
    if s != [] {
      NoEndInside(s[1..]);
      assert 0 !in EncodeChar(s[0]);
    }
  }

  lemma {:induction false} EncodeMore(s: seq<Wide>, n: nat)
    requires n < |s|
    ensures Encode(s[..n + 1]) == Encode(s[..n]) + EncodeChar(s[n])
    decreases n
  {
    hide EncodeChar;
    if n == 0 {
      assert s[..1] == [s[0]] && s[..1][1..] == [] && s[..0] == [];
    } else {
      assert s[..n + 1][1..] == s[1..][..n] && s[..n][1..] == s[1..][..n - 1];
      EncodeMore(s[1..], n - 1);
    }
  }

  /** Encode a string that ends with a zero. */
  method Ucs22Utf8(src: seq<Wide>, ghost n: nat) returns (str: seq<Octet>)
    requires n < |src| && src[n] == 0 && 0 !in src[..n]
    ensures str == Encode(src[..n])
  {
    hide Encode, EncodeChar;
    NoneBefore(src, n);
    var p := 0;
    str := [];
    assert src[..0] == [] && Encode([]) == [] by {
      NothingEncoded();
    }
    while src[p] != 0
      invariant 0 <= p <= n && str == Encode(src[..p])
      decreases n - p
    {
      EncodeMore(src, p);
      str := str + EncodeChar(src[p]);
      p := p + 1;
    }
  }

  lemma NoneBefore(src: seq<int>, n: nat)
    requires n <= |src| && 0 !in src[..n]
    ensures forall i :: 0 <= i < n ==> src[i] != 0
  {
    forall i | 0 <= i < n
      ensures src[i] != 0
    {
      assert src[..n][i] == src[i];
    }
  }

  lemma NothingEncoded()
    ensures Encode([]) == []
  {
  }

  /** How many bytes of a form come before the zero that ends the string; the loop reads these and, if they are too few, others. */
  method Uncut(src: seq<Octet>, p: nat, size: nat, ghost n: nat) returns (there: nat)
    requires p < n < |src| && src[n] == 0 && (forall i :: 0 <= i < n ==> src[i] != 0) && 1 <= size
    ensures there == if p + size <= n then size else n - p
  {
    there := 1;
    while there < size && src[p + there] != 0
      invariant 1 <= there <= size && p + there <= n
    {
      there := there + 1;
    }
  }

  /** Decode bytes that end with a zero.  None stands for reading on beyond it, in a form that it cuts short. */
  method Utf82Ucs2(src: seq<Octet>, ghost n: nat) returns (str: Option<seq<Wide>>)
    requires n < |src| && src[n] == 0 && 0 !in src[..n]
    ensures str == Decode(src[..n])
  {
    hide Decode, DecodeChar, FormSize;
    NoneBefore(src, n);
    var p, done := 0, [];
    assert src[0..n] == src[..n];
    NothingDone(Decode(src[..n]));
    while src[p] != 0
      invariant 0 <= p <= n && Decode(src[..n]) == After(done, Decode(src[p..n]))
      decreases n - p
    {
      ghost var rest := src[p..n];
      DecodeStep(rest);
      var size := FormSize(src[p]);
      var there := Uncut(src, p, size, n);
      if there < size {
        return None;
      }
      SameChar(rest, size);
      assert rest[..size] == src[p..p + size] && rest[size..] == src[p + size..n];
      AfterMore(done, DecodeChar(rest), Decode(rest[size..]));
      done := done + [DecodeChar(src[p..p + size])];
      p := p + size;
    }
    NoneLeft(src[p..n]);
    assert done + [] == done;
    str := Some(done);
  }

  /** What has been decoded, and then the rest, unless that cannot be decoded. */
  ghost function After(done: seq<Wide>, rest: Option<seq<Wide>>): Option<seq<Wide>> {
    match rest
    case None => None
    case Some(s) => Some(done + s)
  }

  lemma NothingDone(rest: Option<seq<Wide>>)
    ensures After([], rest) == rest
  {
    assert rest.Some? ==> [] + rest.value == rest.value;
  }

  lemma AfterMore(done: seq<Wide>, c: Wide, rest: Option<seq<Wide>>)
    ensures After(done, After([c], rest)) == After(done + [c], rest)
  {
    assert rest.Some? ==> done + ([c] + rest.value) == (done + [c]) + rest.value;
  }

  lemma DecodeStep(p: seq<Octet>)
    requires p != []
    ensures 1 <= FormSize(p[0])
    ensures Decode(p) == if |p| < FormSize(p[0]) then None else After([DecodeChar(p)], Decode(p[FormSize(p[0])..]))
  {
    hide DecodeChar;
  }

  lemma NoneLeft(p: seq<Octet>)
    ensures p == [] ==> Decode(p) == Some([])
  {
  }

  /** The decoder looks at no more bytes than it takes. */
  lemma SameChar(p: seq<Octet>, size: nat)
    requires p != [] && size == FormSize(p[0]) <= |p|
    ensures p[..size] != [] && DecodeChar(p[..size]) == DecodeChar(p)
  {
  }
}
