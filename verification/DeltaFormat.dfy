/**
 The format of a binary delta: a control stream of copy operations, the inserted
 data they draw on, and a header.
 */
module DeltaFormat {
  import opened Wrappers
  import opened Checksum

  /** Copy len bytes from position pos of the inserted data, or of the original file. */
  datatype Op = Op(fromData: bool, len: nat, pos: nat)

  const MAX_LEN := 0x2000_0000
  const MAX_POS := 0x4000_0000

  predicate Encodable(op: Op) {
    op.len < MAX_LEN && op.pos < MAX_POS
  }

  // ----- Numbers in one to four bytes

  /** The region bit is the top bit of the first byte; the next two say how many bytes follow. */
  function EncodeLen(fromData: bool, len: nat): (s: seq<Byte>)
    requires len < MAX_LEN
  {
    var bit := if fromData then 0x80 else 0;
    if len < 0x20 then [len + bit]
    else if len < 0x2000 then [len / 0x100 + 0x20 + bit, len % 0x100]
    else if len < 0x20_0000 then [len / 0x1_0000 + 0x40 + bit, len / 0x100 % 0x100, len % 0x100]
    else [len / 0x100_0000 + 0x60 + bit, len / 0x1_0000 % 0x100, len / 0x100 % 0x100, len % 0x100]
  }

  function EncodePos(pos: nat): (s: seq<Byte>)
    requires pos < MAX_POS
  {
    if pos < 0x40 then [pos]
    else if pos < 0x4000 then [pos / 0x100 + 0x40, pos % 0x100]
    else if pos < 0x40_0000 then [pos / 0x1_0000 + 0x80, pos / 0x100 % 0x100, pos % 0x100]
    else [pos / 0x100_0000 + 0xC0, pos / 0x1_0000 % 0x100, pos / 0x100 % 0x100, pos % 0x100]
  }

  function EncodeOp(op: Op): seq<Byte>
    requires op.len < MAX_LEN && op.pos < MAX_POS
  {
    EncodeLen(op.fromData, op.len) + EncodePos(op.pos)
  }

  /** How many bytes a length takes, by the two bits below the region bit of its first byte. */
  function LenSize(b: Byte): nat { b % 0x80 / 0x20 + 1 }

  function PosSize(b: Byte): nat { b / 0x40 + 1 }

  /** Four digits to base 256. */
  function Spell(a: int, b: int, c: int, d: int): int { a * 0x100_0000 + b * 0x1_0000 + c * 0x100 + d }

  /** The number spelt by n bytes, of which the first counts for first only. */
  function Number(first: int, s: seq<Byte>, n: nat): (r: int)
    requires 1 <= n <= 4 && n <= |s|
  {
    if n == 1 then first
    else if n == 2 then Spell(0, 0, first, s[1])
    else if n == 3 then Spell(0, first, s[1], s[2])
    else Spell(first, s[1], s[2], s[3])
  }

  /** None stands for a failed assertion: the stream ends too early. */
  function DecodeLen(s: seq<Byte>): Option<(bool, nat)> {
    if s == [] || |s| < LenSize(s[0]) then None
    else Some((s[0] >= 0x80, Number(s[0] % 0x20, s, LenSize(s[0]))))
  }

  function DecodePos(s: seq<Byte>): Option<nat> {
    if s == [] || |s| < PosSize(s[0]) then None
    else Some(Number(s[0] % 0x40, s, PosSize(s[0])))
  }

  /** One operation and the bytes it takes. */
  function DecodeOp(s: seq<Byte>): (r: Option<(Op, nat)>)
    ensures r.Some? ==> 2 <= r.value.1 <= |s|
  {
    match DecodeLen(s)
    case None => None
    case Some((fromData, len)) =>
      var n := LenSize(s[0]);
      match DecodePos(s[n..])
      case None => None
      case Some(pos) => Some((Op(fromData, len, pos), n + PosSize(s[n])))
  }

  lemma Digits(n: nat)
    ensures n == Spell(0, 0, n / 0x100, n % 0x100)
    ensures n == Spell(0, n / 0x1_0000, n / 0x100 % 0x100, n % 0x100)
    ensures n == Spell(n / 0x100_0000, n / 0x1_0000 % 0x100, n / 0x100 % 0x100, n % 0x100)
  {
    var q := n / 0x100;
    assert n / 0x1_0000 == q / 0x100;
    var r := q / 0x100;
    assert n / 0x100_0000 == r / 0x100;
  }

  lemma FirstByte(fromData: bool, tag: nat, k: nat)
    requires tag < 4 && k < 0x20
    ensures var b := k + tag * 0x20 + (if fromData then 0x80 else 0);
            b % 0x80 / 0x20 == tag && b % 0x20 == k && (b >= 0x80 <==> fromData)
  {
  }

  lemma DecodeEncodedLen(fromData: bool, len: nat, rest: seq<Byte>)
    requires len < MAX_LEN
    ensures var s := EncodeLen(fromData, len);
            DecodeLen(s + rest) == Some((fromData, len)) && LenSize(s[0]) == |s|
  {
    Digits(len);
    hide Spell;
    var s := EncodeLen(fromData, len);
    if len < 0x20 {
      FirstByte(fromData, 0, len);
    } else if len < 0x2000 {
      FirstByte(fromData, 1, len / 0x100);
    } else if len < 0x20_0000 {
      FirstByte(fromData, 2, len / 0x1_0000);
    } else {
      FirstByte(fromData, 3, len / 0x100_0000);
    }
    assert (s + rest)[0] == s[0] && LenSize(s[0]) == |s|;
  }

  lemma DecodeEncodedPos(pos: nat, rest: seq<Byte>)
    requires pos < MAX_POS
    ensures var s := EncodePos(pos);
            DecodePos(s + rest) == Some(pos) && PosSize(s[0]) == |s|
  {
    Digits(pos);
    hide Spell;
    var s := EncodePos(pos);
    assert (s + rest)[0] == s[0] && PosSize(s[0]) == |s|;
  }

  /** Decoding reads back the operation encoded, and exactly its bytes. */
  lemma DecodeEncoded(op: Op, rest: seq<Byte>)
    requires Encodable(op)
    ensures DecodeOp(EncodeOp(op) + rest) == Some((op, |EncodeOp(op)|))
  {
    var l, p := EncodeLen(op.fromData, op.len), EncodePos(op.pos);
    DecodeEncodedLen(op.fromData, op.len, p + rest);
    DecodeEncodedPos(op.pos, rest);
    hide EncodeLen, EncodePos;
    assert EncodeOp(op) + rest == l + (p + rest);
    DecodeBoth(l, p, rest, op);
  }

  lemma DecodeBoth(l: seq<Byte>, p: seq<Byte>, rest: seq<Byte>, op: Op)
    requires l != [] && LenSize(l[0]) == |l| && DecodeLen(l + (p + rest)) == Some((op.fromData, op.len))
    requires p != [] && PosSize(p[0]) == |p| && DecodePos(p + rest) == Some(op.pos)
    ensures DecodeOp(l + (p + rest)) == Some((op, |l| + |p|))
  {
    hide DecodeLen, DecodePos, LenSize, PosSize;
    var s := l + (p + rest);
    assert s[0] == l[0] && s[|l|..] == p + rest && s[|l|] == p[0];
  }

  // ----- Streams of operations

  ghost predicate AllEncodable(ops: seq<Op>) {
    forall i :: 0 <= i < |ops| ==> Encodable(ops[i])
  }

  ghost function EncodeOps(ops: seq<Op>): seq<Byte>
    requires AllEncodable(ops)
  {
    if ops == [] then [] else EncodeOp(ops[0]) + EncodeOps(ops[1..])
  }

  lemma {:induction false} EncodeAppend(ops: seq<Op>, op: Op)
    requires AllEncodable(ops) && Encodable(op)
    ensures AllEncodable(ops + [op]) && EncodeOps(ops + [op]) == EncodeOps(ops) + EncodeOp(op)
  {
    if ops != [] {
      EncodeAppend(ops[1..], op);
      assert (ops + [op])[1..] == ops[1..] + [op];
    }
  }

  /** The bytes that an operation copies lie within its region. */
  ghost predicate Fits(op: Op, original: seq<Byte>, data: seq<Byte>) {
    op.pos + op.len <= |if op.fromData then data else original|
  }

  ghost predicate AllFit(ops: seq<Op>, original: seq<Byte>, data: seq<Byte>) {
    forall i :: 0 <= i < |ops| ==> Fits(ops[i], original, data)
  }

  ghost function Copied(op: Op, original: seq<Byte>, data: seq<Byte>): seq<Byte>
    requires Fits(op, original, data)
  {
    (if op.fromData then data else original)[op.pos..op.pos + op.len]
  }

  /** What the operations build. */
  ghost function Built(ops: seq<Op>, original: seq<Byte>, data: seq<Byte>): seq<Byte>
    requires AllFit(ops, original, data)
  {
    if ops == [] then [] else Copied(ops[0], original, data) + Built(ops[1..], original, data)
  }

  lemma {:induction false} BuiltAppend(ops: seq<Op>, op: Op, original: seq<Byte>, data: seq<Byte>)
    requires AllFit(ops, original, data) && Fits(op, original, data)
    ensures AllFit(ops + [op], original, data)
    ensures Built(ops + [op], original, data) == Built(ops, original, data) + Copied(op, original, data)
  {
    if ops == [] {
      assert (ops + [op])[1..] == [];
    } else {
      BuiltAppend(ops[1..], op, original, data);
      assert (ops + [op])[1..] == ops[1..] + [op];
    }
  }

  /** Inserting more data does not change what earlier operations build. */
  lemma {:induction false} BuiltMoreData(ops: seq<Op>, original: seq<Byte>, data: seq<Byte>, more: seq<Byte>)
    requires AllFit(ops, original, data)
    ensures AllFit(ops, original, data + more)
    ensures Built(ops, original, data + more) == Built(ops, original, data)
  {
    if ops != [] {
      BuiltMoreData(ops[1..], original, data, more);
      assert Copied(ops[0], original, data + more) == Copied(ops[0], original, data);
    }
  }

  // ----- Patching

  datatype Outcome = Done(output: seq<Byte>) | WrongVersion | AssertionFailed

  /** The loop of `patch`: what it has written so far, and then the rest of the control stream. */
  function Replay(control: seq<Byte>, original: seq<Byte>, data: seq<Byte>, total: nat, output: seq<Byte>): Outcome
    decreases |control|
  {
    if control == [] then Done(output)
    else
      match DecodeOp(control)
      case None => AssertionFailed
      case Some((op, n)) =>
        // Only the last operation may ask for more than is left to build; it gets what is left.
        var len := if n == |control| && |output| + op.len > total then total - |output| else op.len;
        if len < 0 || |output| + len > total then AssertionFailed
        else
          var region := if op.fromData then data else original;
          if op.pos + len > |region| then AssertionFailed
          else Replay(control[n..], original, data, total, output + region[op.pos..op.pos + len])
  }

  lemma ReplayFirst(op: Op, rest: seq<Byte>, original: seq<Byte>, data: seq<Byte>, total: nat, output: seq<Byte>)
    requires Encodable(op) && Fits(op, original, data) && |output| + op.len <= total
    ensures Replay(EncodeOp(op) + rest, original, data, total, output)
            == Replay(rest, original, data, total, output + Copied(op, original, data))
  {
    hide EncodeOp, DecodeOp;
    DecodeEncoded(op, rest);
    assert (EncodeOp(op) + rest)[|EncodeOp(op)|..] == rest;
  }

  /** Replaying an encoded stream of operations that fit builds what they build. */
  lemma {:induction false} ReplayEncoded(ops: seq<Op>, original: seq<Byte>, data: seq<Byte>, total: nat, output: seq<Byte>)
    requires AllEncodable(ops) && AllFit(ops, original, data)
    requires |output| + |Built(ops, original, data)| <= total
    ensures Replay(EncodeOps(ops), original, data, total, output) == Done(output + Built(ops, original, data))
    decreases |ops|
  {
    hide EncodeOp, DecodeOp;
    if ops == [] {
      assert output + [] == output;
    } else {
      ReplayFirst(ops[0], EncodeOps(ops[1..]), original, data, total, output);
      var next := output + Copied(ops[0], original, data);
      ReplayEncoded(ops[1..], original, data, total, next);
      assert next + Built(ops[1..], original, data) == output + Built(ops, original, data);
    }
  }

  // ----- The header

  const HEADER_SIZE := 16

  function ReadShort(s: seq<Byte>, p: nat): nat
    requires p + 2 <= |s|
  {
    Spell(0, 0, s[p], s[p + 1])
  }

  function ReadLong(s: seq<Byte>, p: nat): nat
    requires p + 4 <= |s|
  {
    Spell(s[p], s[p + 1], s[p + 2], s[p + 3])
  }

  /** Every number in network order: the version, which is 1, then the block size and the three lengths. */
  function Header(blockSize: nat, control: nat, data: nat, file: nat): (h: seq<Byte>)
    requires blockSize < 0x1_0000
    requires control < 0x1_0000_0000 && data < 0x1_0000_0000 && file < 0x1_0000_0000
    ensures |h| == HEADER_SIZE
  {
    [0, 1, blockSize / 0x100, blockSize % 0x100,
     control / 0x100_0000, control / 0x1_0000 % 0x100, control / 0x100 % 0x100, control % 0x100,
     data / 0x100_0000, data / 0x1_0000 % 0x100, data / 0x100 % 0x100, data % 0x100,
     file / 0x100_0000, file / 0x1_0000 % 0x100, file / 0x100 % 0x100, file % 0x100]
  }

  lemma ReadHeader(blockSize: nat, control: nat, data: nat, file: nat, rest: seq<Byte>)
    requires blockSize < 0x1_0000
    requires control < 0x1_0000_0000 && data < 0x1_0000_0000 && file < 0x1_0000_0000
    ensures var h := Header(blockSize, control, data, file) + rest;
            && ReadShort(h, 0) == 1 && ReadShort(h, 2) == blockSize
            && ReadLong(h, 4) == control && ReadLong(h, 8) == data && ReadLong(h, 12) == file
  {
    Digits(blockSize);
    Digits(control);
    Digits(data);
    Digits(file);
  }
}
