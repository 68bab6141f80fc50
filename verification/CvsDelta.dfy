/**
 cvsdelta: describe one file as copies from another and from data inserted on the way.

 Both files are padded past their end, because the block sums and the match look at
 whole blocks.
 */
module CvsDelta {
  import opened Wrappers
  import opened Checksum
  import opened BlockIndex
  import opened DeltaFormat
  import opened ByteArrays

  /** Padding past the end of either file. */
  const BLOCKPAD := 256

  /** Lengths in memory are passed on as signed numbers of 32 bits. */
  const INT_LIMIT := 0x8000_0000

  /** Lengths in the header have 32 bits. */
  const LONG_LIMIT := 0x1_0000_0000

  type Positive = n: int | 0 < n witness 1

  const PRIMES: seq<Positive> := [
    1861, 2777, 4177, 6247, 9371, 14057, 21089, 31627,
    47431, 71143, 106721, 160073, 240101, 360163, 540217,
    810343, 1215497, 1823231, 2734867, 4102283, 6153409,
    9230113, 13845163]

  /** The first of the primes above size, or the last of them. */
  function NextPrime(size: nat, n: nat := 0): (p: nat)
    requires n < |PRIMES|
    ensures 0 < p && (size < p || p == PRIMES[|PRIMES| - 1])
    decreases |PRIMES| - n
  {
    if PRIMES[n] > size || n == |PRIMES| - 1 then PRIMES[n] else NextPrime(size, n + 1)
  }

  function BlockSize(size: nat): (n: nat)
    ensures 8 <= n <= 128
  {
    if size <= 256 * 1024 then 8
    else if size <= 512 * 1024 then 16
    else if size <= 1024 * 1024 then 32
    else if size <= 2048 * 1024 then 64
    else 128
  }

  /** The number of blocks of a file, a last partial one included. */
  function Blocks(size: nat, blockSize: nat): nat
    requires 0 < blockSize
  {
    size / blockSize + (if size % blockSize != 0 then 1 else 0)
  }

  /** The n bytes from i1 on are the n bytes from i2 on. */
  ghost predicate SameBytes(m1: seq<Byte>, i1: int, m2: seq<Byte>, i2: int, n: int) {
    && 0 <= i1 && 0 <= i2 && 0 <= n && i1 + n <= |m1| && i2 + n <= |m2|
    && m1[i1..i1 + n] == m2[i2..i2 + n]
  }

  lemma SameAt(m1: seq<Byte>, i1: int, m2: seq<Byte>, i2: int, n: int, k: nat)
    requires SameBytes(m1, i1, m2, i2, n) && k < n
    ensures m1[i1 + k] == m2[i2 + k]
  {
    assert m1[i1 + k] == m1[i1..i1 + n][k] && m2[i2 + k] == m2[i2..i2 + n][k];
  }

  lemma SameOne(m1: seq<Byte>, i1: int, m2: seq<Byte>, i2: int)
    requires 0 <= i1 < |m1| && 0 <= i2 < |m2| && m1[i1] == m2[i2]
    ensures SameBytes(m1, i1, m2, i2, 1)
  {
  }

  lemma SameNone(m1: seq<Byte>, i1: int, m2: seq<Byte>, i2: int)
    requires 0 <= i1 <= |m1| && 0 <= i2 <= |m2|
    ensures SameBytes(m1, i1, m2, i2, 0)
  {
  }

  /** Two equal stretches, the second of which begins where the first ends. */
  lemma SameJoined(m1: seq<Byte>, i1: int, m2: seq<Byte>, i2: int, n: int, more: int)
    requires SameBytes(m1, i1, m2, i2, n) && SameBytes(m1, i1 + n, m2, i2 + n, more)
    ensures SameBytes(m1, i1, m2, i2, n + more)
  {
    assert m1[i1..i1 + n + more] == m1[i1..i1 + n] + m1[i1 + n..i1 + n + more];
    assert m2[i2..i2 + n + more] == m2[i2..i2 + n] + m2[i2 + n..i2 + n + more];
  }

  /** Back from a stretch that is known to be equal, by at most maxBack bytes. */
  method MatchBack(m1: seq<Byte>, i1: nat, m2: seq<Byte>, i2: nat, maxBack: nat) returns (back: nat)
    requires maxBack <= i1 <= |m1| && maxBack <= i2 <= |m2|
    ensures back <= maxBack && SameBytes(m1, i1 - back, m2, i2 - back, back)
    ensures back == maxBack || m1[i1 - back - 1] != m2[i2 - back - 1]
  {
    hide SameBytes;
    back := 0;
    SameNone(m1, i1, m2, i2);
    while back < maxBack && m1[i1 - back - 1] == m2[i2 - back - 1]
      invariant back <= maxBack && SameBytes(m1, i1 - back, m2, i2 - back, back)
    {
      SameOne(m1, i1 - back - 1, m2, i2 - back - 1);
      SameJoined(m1, i1 - back - 1, m2, i2 - back - 1, 1, back);
      back := back + 1;
    }
  }

  /** Forward over equal bytes; the byte at the bound is looked at too. */
  method MatchForward(m1: seq<Byte>, i1: nat, m2: seq<Byte>, i2: nat, maxForward: nat) returns (forward: nat)
    requires i1 + maxForward < |m1| && i2 + maxForward < |m2|
    ensures forward <= maxForward + 1 && SameBytes(m1, i1, m2, i2, forward)
    ensures forward == maxForward + 1 || m1[i1 + forward] != m2[i2 + forward]
  {
    hide SameBytes;
    forward := 0;
    SameNone(m1, i1, m2, i2);
    while forward <= maxForward && m1[i1 + forward] == m2[i2 + forward]
      invariant forward <= maxForward + 1 && SameBytes(m1, i1, m2, i2, forward)
    {
      SameOne(m1, i1 + forward, m2, i2 + forward);
      SameJoined(m1, i1, m2, i2, forward, 1);
      forward := forward + 1;
    }
  }

  /**
   Extend a match both ways from a stretch that is known to be equal: back by at most
   maxBack, and forward to at most maxForward beyond.  The byte at that bound is looked
   at too, and the last byte found equal is not counted.
   */
  method Match(m1: seq<Byte>, i1: nat, m2: seq<Byte>, i2: nat, maxBack: nat, maxForward: nat, ghost known: nat)
    returns (base: nat, len: nat)
    requires maxBack <= i1 && maxBack <= i2
    requires i1 + maxForward < |m1| && i2 + maxForward < |m2|
    requires 1 <= known <= maxForward + 1 && SameBytes(m1, i1, m2, i2, known)
    ensures i1 - maxBack <= base <= i1 && i1 + known - 1 <= base + len <= i1 + maxForward
    ensures SameBytes(m1, base, m2, base + i2 - i1, len + 1)
    ensures base == i1 - maxBack || m1[base - 1] != m2[base + i2 - i1 - 1]
    ensures base + len == i1 + maxForward || m1[base + len + 1] != m2[base + i2 - i1 + len + 1]
  {
    hide SameBytes;
    var back := MatchBack(m1, i1, m2, i2, maxBack);
    base := i1 - back;
    var forward := MatchForward(m1, i1, m2, i2, maxForward);
    if forward < known {
      SameAt(m1, i1, m2, i2, known, forward);
    }
    len := back + forward - 1;
    SameJoined(m1, base, m2, i2 - back, back, forward);
  }

  // ----- Building the delta

  /** Some block of file 1, or of insertions of these lengths, is the one given. */
  ghost predicate Known(mem1: seq<Byte>, size1: nat, lens: seq<nat>, data: seq<Byte>, blockSize: nat, block: seq<Byte>)
    requires 0 < blockSize
  {
    || (exists q :: OriginalBlock(size1, blockSize, q) && BlockIs(mem1, q, block))
    || (exists q :: DataBlock(lens, blockSize, q) && BlockIs(data, q, block))
  }

  ghost predicate KnownAt(mem1: seq<Byte>, size1: nat, lens: seq<nat>, data: seq<Byte>, blockSize: nat, mem2: seq<Byte>, q: nat)
    requires 0 < blockSize
  {
    q + blockSize <= |mem2| && Known(mem1, size1, lens, data, blockSize, mem2[q..q + blockSize])
  }

  /** No byte of file 2 from position a up to position b begins a known block. */
  ghost predicate AllUnknown(mem1: seq<Byte>, size1: nat, lens: seq<nat>, data: seq<Byte>, blockSize: nat, mem2: seq<Byte>, a: nat, b: nat)
    requires 0 < blockSize
  {
    forall q: nat :: a <= q < b ==> !KnownAt(mem1, size1, lens, data, blockSize, mem2, q)
  }

  /** The k-th insertion holds bytes of file 2 at its place, none of which began a block known before it. */
  ghost predicate NeededAt(mem1: seq<Byte>, size1: nat, mem2: seq<Byte>, blockSize: nat, places: seq<nat>, lens: seq<nat>, data: seq<Byte>, k: nat)
    requires 0 < blockSize && k < |lens| == |places|
  {
    var s := Sum(lens[..k]);
    && s + lens[k] <= |data| && places[k] + lens[k] <= |mem2|
    && data[s..s + lens[k]] == mem2[places[k]..places[k] + lens[k]]
    && AllUnknown(mem1, size1, lens[..k], data[..s], blockSize, mem2, places[k], places[k] + lens[k])
    && (k > 0 ==> places[k - 1] + lens[k - 1] <= places[k])
  }

  /** The inserted data is made of stretches of file 2, in order and up to position n, none of which could have been copied. */
  ghost predicate AllNeeded(mem1: seq<Byte>, size1: nat, mem2: seq<Byte>, blockSize: nat, places: seq<nat>, lens: seq<nat>, data: seq<Byte>, n: nat)
    requires 0 < blockSize
  {
    && |places| == |lens| && Sum(lens) == |data|
    && (lens != [] ==> places[|places| - 1] + lens[|lens| - 1] <= n)
    && forall k: nat :: k < |lens| ==> NeededAt(mem1, size1, mem2, blockSize, places, lens, data, k)
  }

  lemma NeededLater(mem1: seq<Byte>, size1: nat, mem2: seq<Byte>, blockSize: nat, places: seq<nat>, lens: seq<nat>, data: seq<Byte>, k: nat,
                    place: nat, len: nat, more: seq<Byte>)
    requires 0 < blockSize && k < |lens| == |places| && NeededAt(mem1, size1, mem2, blockSize, places, lens, data, k)
    ensures NeededAt(mem1, size1, mem2, blockSize, places + [place], lens + [len], data + more, k)
  {
    hide AllUnknown, Sum;
    var s := Sum(lens[..k]);
    PrefixKept(lens, [len], k);
    PrefixKept(data, more, s);
    SliceKept(data, more, s, s + lens[k]);
  }

  lemma PrefixKept<T>(s: seq<T>, more: seq<T>, n: nat)
    requires n <= |s|
    ensures (s + more)[..n] == s[..n]
  {
  }

  lemma SliceKept<T>(s: seq<T>, more: seq<T>, i: nat, j: nat)
    requires i <= j <= |s|
    ensures (s + more)[i..j] == s[i..j]
  {
  }

  /** One more insertion that is needed. */
  lemma OneMoreNeeded(mem1: seq<Byte>, size1: nat, mem2: seq<Byte>, blockSize: nat, places: seq<nat>, lens: seq<nat>, data: seq<Byte>,
                      place: nat, len: nat, more: seq<Byte>)
    requires 0 < blockSize && AllNeeded(mem1, size1, mem2, blockSize, places, lens, data, place)
    requires place + len <= |mem2| && more == mem2[place..place + len]
    requires AllUnknown(mem1, size1, lens, data, blockSize, mem2, place, place + len)
    ensures AllNeeded(mem1, size1, mem2, blockSize, places + [place], lens + [len], data + more, place + len)
  {
    hide AllUnknown, Sum, NeededAt;
    var places', lens', data', n := places + [place], lens + [len], data + more, |lens|;
    SumMore(lens, len);
    forall k: nat | k < |lens'|
      ensures NeededAt(mem1, size1, mem2, blockSize, places', lens', data', k)
    {
      if k < n {
        assert NeededAt(mem1, size1, mem2, blockSize, places, lens, data, k);
        NeededLater(mem1, size1, mem2, blockSize, places, lens, data, k, place, len, more);
      } else {
        NeededLast(mem1, size1, mem2, blockSize, places, lens, data, place, len, more);
      }
    }
  }

  lemma NeededLast(mem1: seq<Byte>, size1: nat, mem2: seq<Byte>, blockSize: nat, places: seq<nat>, lens: seq<nat>, data: seq<Byte>,
                   place: nat, len: nat, more: seq<Byte>)
    requires 0 < blockSize && |places| == |lens| && Sum(lens) == |data|
    requires lens != [] ==> places[|places| - 1] + lens[|lens| - 1] <= place
    requires place + len <= |mem2| && more == mem2[place..place + len]
    requires AllUnknown(mem1, size1, lens, data, blockSize, mem2, place, place + len)
    ensures NeededAt(mem1, size1, mem2, blockSize, places + [place], lens + [len], data + more, |lens|)
  {
    hide AllUnknown, Sum;
    JoinCut(lens, [len]);
    JoinCut(data, more);
  }

  lemma JoinCut<T>(s: seq<T>, more: seq<T>)
    ensures (s + more)[..|s|] == s && (s + more)[|s|..|s| + |more|] == more
  {
  }

  /**
   A match within file 2 from position last on, and within a region: it cannot begin earlier, and it ends where one
   of them ends, or one byte before the last that is equal.
   */
  ghost predicate Maximal(mem2: seq<Byte>, size2: nat, mem: seq<Byte>, size: nat, last: nat, start: nat, pos: nat, len: nat) {
    && last <= start && start + len <= size2 < |mem2| && pos + len <= size < |mem|
    && (start == last || pos == 0 || mem2[start - 1] != mem[pos - 1])
    && (start + len == size2 || pos + len == size || mem2[start + len + 1] != mem[pos + len + 1])
  }

  /** What has been built so far, while file2 is scanned. */
  class Builder {
    const file1: seq<Byte>
    const mem1: seq<Byte>  // file1 and its padding
    const file2: seq<Byte>
    const mem2: seq<Byte>
    const data: ByteArray
    const control: ByteArray
    const index: Index
    const count1: nat  // the entries for file1
    ghost var ops: seq<Op>
    ghost var inserts: seq<nat>  // the lengths of the insertions so far
    ghost var places: seq<nat>  // where in file2 they are from

    ghost function Repr(): set<object>
      reads this, data, control, index
    {
      {this, data, data.buf, control, control.buf, index, index.heads}
    }

    ghost predicate Valid()
      reads this, data, data.buf, control, control.buf, index, index.heads
    {
      && Separate()
      && data.Valid() && data.buf.Length == |file2|
      && control.Valid()
      && index.Valid(mem1, data.Contents())
      && Sum(inserts) == data.len
      && Files()
      && AllEncodable(ops) && control.Contents() == EncodeOps(ops)
      && AllFit(ops, file1, data.Contents())
    }

    ghost predicate Separate()
      reads this, data, control
    {
      data != control && data.buf != control.buf && index.heads as object != data.buf && index.heads as object != control.buf
    }

    /** No part of either file is too long for an operation, or too far from its beginning. */
    ghost predicate Small() {
      |file1| < MAX_LEN && |file2| < MAX_LEN
    }

    /** The files are padded, and not too large. */
    ghost predicate Files() {
      && |file1| < INT_LIMIT && |file2| < INT_LIMIT
      && |mem1| == |file1| + BLOCKPAD && mem1[..|file1|] == file1
      && |mem2| == |file2| + BLOCKPAD && mem2[..|file2|] == file2
      && 8 <= index.blockSize <= 128
    }

    /** The operations so far build the first n bytes of file2, and take no more room than they may. */
    ghost predicate Covers(n: int)
      requires Valid()
      reads this, data, data.buf, control, control.buf, index, index.heads
    {
      && 0 <= n <= |file2|
      && Built(ops, file1, data.Contents()) == file2[..n]
      && data.len <= n && control.len <= 5 * n
      && UpToDate() && Justified(n)
    }

    /** The index holds the blocks of file1 and of all insertions, and its second part, which has room for one entry for each block of file2, can take them. */
    ghost predicate UpToDate()
      requires index.blockSize > 0
      reads this, data, index
    {
      && Indexed(index.entries, |file1|, inserts, index.blockSize)
      && count1 <= |index.entries| && (|index.entries| - count1) * index.blockSize <= data.len
    }

    /** Some block of file1 or of an insertion is the one given. */
    ghost predicate HasBlock(block: seq<Byte>)
      requires index.blockSize > 0
      reads this, data, data.buf, index
      requires data.Valid()
    {
      Known(mem1, |file1|, inserts, data.Contents(), index.blockSize, block)
    }

    /** At none of these positions of file2 is there a match. */
    ghost predicate Missed(a: nat, b: nat)
      requires index.blockSize > 0
      reads this, data, data.buf, index
      requires data.Valid()
    {
      AllUnknown(mem1, |file1|, inserts, data.Contents(), index.blockSize, mem2, a, b)
    }

    /** Whatever was inserted, up to position n of file2, had no match. */
    ghost predicate Justified(n: nat)
      requires index.blockSize > 0
      reads this, data, data.buf, index
      requires data.Valid()
    {
      AllNeeded(mem1, |file1|, mem2, index.blockSize, places, inserts, data.Contents(), n)
    }

    constructor (file1: seq<Byte>, pad1: seq<Byte>, file2: seq<Byte>, pad2: seq<Byte>,
                 data: ByteArray, control: ByteArray, index: Index)
      requires |file1| < INT_LIMIT && |file2| < INT_LIMIT && |pad1| == BLOCKPAD && |pad2| == BLOCKPAD
      requires data != control && data.buf != control.buf
      requires index.heads as object != data.buf && index.heads as object != control.buf
      requires data.Valid() && data.len == 0 && data.buf.Length == |file2| && control.Valid() && control.len == 0
      requires index.Valid(file1 + pad1, []) && index.entries == [] && index.blockSize == BlockSize(|file2|)
      ensures Valid() && ops == [] && inserts == [] && places == []
      ensures this.file1 == file1 && this.mem1 == file1 + pad1 && this.file2 == file2 && this.mem2 == file2 + pad2
      ensures this.data == data && this.control == control && this.index == index
      ensures count1 == Blocks(|file1|, index.blockSize)
    {
      hide Chained, AllDescribe, BlockSize, Blocks, EncodeOp;
      this.file1, this.mem1, this.file2, this.mem2 := file1, file1 + pad1, file2, file2 + pad2;
      this.data, this.control, this.index := data, control, index;
      count1 := Blocks(|file1|, index.blockSize);
      ops, inserts, places := [], [], [];
      new;
      assert data.Contents() == [] && control.Contents() == [];
    }

    /** Index every block of file1, the last one first. */
    method IndexOriginal()
      requires Valid() && ops == [] && inserts == [] && places == [] && data.len == 0 && control.len == 0 && index.entries == []
      requires count1 == Blocks(|file1|, index.blockSize)
      modifies index`entries, index.heads
      ensures Valid() && Covers(0) && Repr() == old(Repr())
      ensures forall id :: 0 <= id < |index.entries| ==> IsBlock(index.entries[id], 0, count1, id, index.blockSize, false)
      ensures |index.entries| == count1
    {
      hide Chained, AllDescribe, Blocks, EncodeOp, IsBlock;
      BlocksFit(|file1|, index.blockSize);
      index.AddBlocks(0, count1, false, mem1, data.Contents());
      OriginalIndexed(index.entries, |file1|, count1, index.blockSize);
      assert 0 * index.blockSize == 0;
    }

    /** Append one operation to the control stream; an assertion fails if it is too long or too far away. */
    method WriteOp(op: Op) returns (ok: bool)
      requires Valid() && Fits(op, file1, data.Contents())
      modifies this`ops, control, control.buf
      ensures ok == Encodable(op)
      ensures ok ==> Valid() && ops == old(ops) + [op] && control.len == old(control.len) + |EncodeOp(op)|
      ensures control.buf == old(control.buf) || fresh(control.buf)
      ensures ok ==> control.len <= old(control.len) + 8 && (op.len >= 1 ==> control.len <= old(control.len) + 5 * op.len)
      ensures ok ==> fresh(Repr() - old(Repr())) && (old(UpToDate()) ==> UpToDate())
      ensures ok ==> data.len == old(data.len) && data.Contents() == old(data.Contents())
      ensures ok ==> Built(ops, file1, data.Contents())
                     == old(Built(ops, file1, data.Contents())) + Copied(op, file1, data.Contents())
    {
      hide Chained, AllDescribe, EncodeOps, Built, EncodeOp, BlockSize, Sum;
      if !Encodable(op) {
        return false;
      }
      ok := true;
      EncodeAppend(ops, op);
      BuiltAppend(ops, op, file1, data.Contents());
      EncodedSize(op);
      var n := control.len;
      control.Resize(n + 32);
      ghost var room := control.Contents();
      var s := EncodeOp(op);
      control.Write(n, s);
      control.Resize(n + |s|);
      assert control.Contents() == room[..n] + s;
      ops := ops + [op];
    }

    static lemma EncodedSize(op: Op)
      requires Encodable(op)
      ensures |EncodeOp(op)| <= 8 && (op.len >= 1 ==> |EncodeOp(op)| <= 5 * op.len)
    {
    }

    /** Append bytes of file2 to the inserted data, which has room for all of file2 and so stays in place. */
    method AppendData(start: nat, len: nat)
      requires Valid() && start + len <= |file2| && data.len + len <= |file2|
      modifies this`inserts, this`places, data, data.buf
      ensures Valid() && data.buf == old(data.buf) && inserts == old(inserts) + [len] && places == old(places) + [start]
      ensures data.Contents() == old(data.Contents()) + file2[start..start + len]
      ensures Built(ops, file1, data.Contents()) == old(Built(ops, file1, data.Contents()))
    {
      hide Chained, AllDescribe, EncodeOps, Built, BlockSize, AllFit, AllEncodable, Sum;
      ghost var before := data.Contents();
      var s := data.len;
      data.Resize(s + len);
      data.Write(s, mem2[start..start + len]);
      SumMore(inserts, len);
      inserts, places := inserts + [len], places + [start];
      SliceOfPrefix(mem2, |file2|, start, start + len);
      assert data.Contents() == before + file2[start..start + len];
      BuiltMoreData(ops, file1, before, file2[start..start + len]);
      MoreData(index.entries, index.table, index.blockSize, mem1, before, file2[start..start + len]);
    }

    /** Append bytes of file2 to the inserted data and index their whole blocks. */
    method CopyBuffer(start: nat, len: nat) returns (s: nat)
      requires Valid() && UpToDate() && start + len <= |file2| && data.len + len <= |file2|
      modifies this`inserts, this`places, data, data.buf, index`entries, index.heads
      ensures Valid() && UpToDate() && inserts == old(inserts) + [len] && places == old(places) + [start]
      ensures s == old(data.len) && data.buf == old(data.buf) && Repr() == old(Repr())
      ensures data.Contents() == old(data.Contents()) + file2[start..start + len]
      ensures Built(ops, file1, data.Contents()) == old(Built(ops, file1, data.Contents()))
    {
      hide Chained, AllDescribe, EncodeOps, Built, IsBlock, BlockSize, AllFit, AllEncodable, Indexed, Sum;
      ghost var before := index.entries;
      s := data.len;
      WholeBlocks(|index.entries| - count1, s, len, index.blockSize);
      AppendData(start, len);
      index.AddBlocks(s, len / index.blockSize, true, mem1, data.Contents());
      InsertionIndexed(before, index.entries, |file1|, old(inserts), len, index.blockSize);
    }

    static lemma WholeBlocks(n: nat, s: nat, len: nat, blockSize: nat)
      requires 0 < blockSize && n * blockSize <= s
      ensures 0 <= len / blockSize && len / blockSize * blockSize <= len
      ensures (n + len / blockSize) * blockSize <= s + len
    {
      var q := len / blockSize;
      assert len == q * blockSize + len % blockSize;
      assert (n + q) * blockSize == n * blockSize + q * blockSize;
    }

    lemma CoversMeans(n: int)
      requires Valid() && Covers(n)
      ensures UpToDate() && Justified(n) && 0 <= n <= |file2| && data.len <= n && control.len <= 5 * n
      ensures Built(ops, file1, data.Contents()) == file2[..n]
    {
    }

    lemma CoversIs(n: int)
      requires Valid() && UpToDate() && 0 <= n <= |file2| && Justified(n) && data.len <= n && control.len <= 5 * n
      requires Built(ops, file1, data.Contents()) == file2[..n]
      ensures Covers(n)
    {
    }

    /** An operation on parts of both files fits, and can be encoded if they are small. */
    lemma OpFits(op: Op)
      requires Valid() && op.len <= |file2| && op.pos + op.len <= |if op.fromData then data.Contents() else file1|
      ensures Fits(op, file1, data.Contents()) && (Small() ==> Encodable(op))
    {
      hide Chained, AllDescribe, EncodeOps, BlockSize, Sum, AllFit, AllEncodable;
    }

    lemma CopiedIs(op: Op) returns (copied: seq<Byte>)
      requires Valid() && Fits(op, file1, data.Contents())
      ensures copied == Copied(op, file1, data.Contents())
      ensures op.pos + op.len <= |if op.fromData then data.Contents() else file1|
      ensures copied == (if op.fromData then data.Contents() else file1)[op.pos..op.pos + op.len]
    {
      hide Chained, AllDescribe, EncodeOps, BlockSize, Sum, AllFit, AllEncodable;
      copied := Copied(op, file1, data.Contents());
    }

    lemma DataLength()
      requires Valid()
      ensures data != control && data.buf != control.buf
      ensures data.Valid() && |data.Contents()| == data.len && |file1| < INT_LIMIT && |file2| < INT_LIMIT && data.len <= |file2|
    {
    }

    /** The insertion of bytes without a match is justified. */
    lemma StillJustified(was: seq<nat>, lens: seq<nat>, before: seq<Byte>, start: nat, len: nat)
      requires Valid() && start + len <= |file2|
      requires AllNeeded(mem1, |file1|, mem2, index.blockSize, was, lens, before, start)
      requires AllUnknown(mem1, |file1|, lens, before, index.blockSize, mem2, start, start + len)
      requires places == was + [start] && inserts == lens + [len] && data.Contents() == before + file2[start..start + len]
      ensures Justified(start + len)
    {
      hide Chained, AllDescribe, EncodeOps, Built, BlockSize, Sum, AllFit, AllEncodable, AllNeeded, AllUnknown;
      SliceOfPrefix(mem2, |file2|, start, start + len);
      OneMoreNeeded(mem1, |file1|, mem2, index.blockSize, was, lens, before, start, len, file2[start..start + len]);
    }

    lemma JustifiedMeans(n: nat, m: nat)
      requires Valid() && Justified(n) && n <= m
      ensures index.blockSize > 0 && AllNeeded(mem1, |file1|, mem2, index.blockSize, places, inserts, data.Contents(), m)
    {
    }

    lemma JustifiedIs(was: seq<nat>, lens: seq<nat>, before: seq<Byte>, n: nat)
      requires Valid() && places == was && inserts == lens && data.Contents() == before
      requires AllNeeded(mem1, |file1|, mem2, index.blockSize, was, lens, before, n)
      ensures Justified(n)
    {
    }

    lemma MissedMeans(a: nat, b: nat)
      requires Valid() && Missed(a, b)
      ensures index.blockSize > 0 && AllUnknown(mem1, |file1|, inserts, data.Contents(), index.blockSize, mem2, a, b)
    {
    }

    /** Describe the next stretch of file2 as inserted data. */
    method Insert(start: nat, len: nat) returns (ok: bool)
      requires Valid() && Covers(start) && 1 <= len && start + len <= |file2| && Missed(start, start + len)
      modifies this`ops, this`inserts, this`places, control, control.buf, data, data.buf, index`entries, index.heads
      ensures Small() ==> ok
      ensures ok ==> Valid() && Covers(start + len) && fresh(Repr() - old(Repr()))
      ensures ok ==> data.buf == old(data.buf) && old(data.Contents()) <= data.Contents()
    {
      hide Valid, Covers, UpToDate, Files, Separate, Small, Chained, AllDescribe, EncodeOps, Built, EncodeOp, BlockSize, Indexed, Sum,
           AllFit, AllEncodable, Fits, Copied, AllNeeded, AllUnknown, Justified, Missed;
      CoversMeans(start);
      DataLength();
      JustifiedMeans(start, start);
      MissedMeans(start, start + len);
      ghost var was, lens, before := places, inserts, data.Contents();
      var s := CopyBuffer(start, len);
      DataLength();
      assert data.len == s + len && |file2[start..start + len]| == len;
      assert old(data.Contents()) <= data.Contents();
      StillJustified(was, lens, before, start, len);
      JustifiedMeans(start + len, start + len);
      ghost var now := data.Contents();
      var op := Op(true, len, s);
      OpFits(op);
      ghost var copied := CopiedIs(op);
      assert data.Contents()[s..s + len] == file2[start..start + len];
      ok := WriteOp(op);
      if !ok {
        return;
      }
      assert file2[..start] + file2[start..start + len] == file2[..start + len];
      JustifiedIs(was + [start], lens + [len], now, start + len);
      CoversIs(start + len);
    }

    /** Describe the next stretch of file2 as a copy. */
    method Copy(fromData: bool, pos: nat, n: nat, len: nat) returns (ok: bool)
      requires Valid() && Covers(n) && 1 <= len && n + len <= |file2|
      requires pos + len <= |if fromData then data.Contents() else file1|
      requires (if fromData then data.Contents() else file1)[pos..pos + len] == file2[n..n + len]
      modifies this`ops, control, control.buf
      ensures Small() ==> ok
      ensures ok ==> Valid() && Covers(n + len) && fresh(Repr() - old(Repr())) && ops == old(ops) + [Op(fromData, len, pos)]
    {
      hide *;
      CoversMeans(n);
      DataLength();
      ghost var was, lens, before := places, inserts, data.Contents();
      JustifiedMeans(n, n + len);
      var op := Op(fromData, len, pos);
      OpFits(op);
      ghost var copied := CopiedIs(op);
      ok := WriteOp(op);
      if !ok {
        return;
      }
      assert file2[..n] + file2[n..n + len] == file2[..n + len];
      JustifiedIs(was, lens, before, n + len);
      CoversIs(n + len);
    }

    /**
     Look for a copy that covers position p of file2: the newest indexed block equal to the one at
     p, extended both ways.  None is found exactly when no indexed block is equal.
     */
    method FindMatch(low: int, high: int, p: nat, last: nat) returns (len: nat, start: nat, fromData: bool, pos: nat, ghost c: int)
      requires Valid() && Covers(last) && last <= p < |file2|
      requires IsCheck(index.table, mem2, p, index.blockSize, low, high)
      ensures len != 0 ==> last <= start <= p < start + len <= |file2|
      ensures len != 0 ==> CopyOf(fromData, start, pos, len)
      ensures len != 0 <==> HasBlock(mem2[p..p + index.blockSize])
      ensures NoneAbove(index.entries, index.blockSize, mem1, data.Contents(), mem2, p, c) && (len != 0 <==> c != NIL)
      ensures len != 0 ==> fromData == index.entries[c].newData && pos == index.entries[c].base - (p - start) && Extended(fromData, last, start, pos, len)
    {
      hide Chained, EncodeOps, Built, BlockSize, AllFit, AllEncodable, LowSum, HighSum, Indexed, CopyOf, Extended, HasBlock, AllNeeded, Sum;
      var found := index.Find(low, high, mem2, p, mem1, data.Contents());
      c := found;
      FoundIfThere(mem2[p..p + index.blockSize], c);
      len, start, fromData, pos := 0, 0, false, 0;
      if found != NIL {
        var e := index.entries[found];
        len, start, pos := Extend(found, p, last);
        fromData := e.newData;
      }
    }

    /** A copy from one of the regions goes as far as it can. */
    ghost predicate Extended(fromData: bool, last: nat, start: nat, pos: nat, len: nat)
      reads data, data.buf
    {
      if fromData then Maximal(mem2, |file2|, data.buf[..], data.len, last, start, pos, len)
      else Maximal(mem2, |file2|, mem1, |file1|, last, start, pos, len)
    }

    /** So many bytes from position pos of one of the regions are those from position start of file2. */
    ghost predicate CopyOf(fromData: bool, start: nat, pos: nat, len: nat)
      requires data.Valid()
      reads data, data.buf
    {
      var region := if fromData then data.Contents() else file1;
      pos + len <= |region| && start + len <= |file2| && region[pos..pos + len] == file2[start..start + len]
    }

    lemma FoundIfThere(block: seq<Byte>, c: int)
      requires Valid() && UpToDate() && |block| == index.blockSize && NIL <= c < |index.entries|
      requires c != NIL ==> Block(index.entries[c], index.blockSize, mem1, data.Contents()) == block
      requires c == NIL ==> forall id :: 0 <= id < |index.entries| ==> Block(index.entries[id], index.blockSize, mem1, data.Contents()) != block
      ensures c != NIL <==> HasBlock(block)
    {
      SearchedEntries(index.entries, index.table, index.blockSize, mem1, data.Contents(), block, c);
      hide AllDescribe, EntryHasBlock, Indexed, OriginalBlock, DataBlock, BlockIs;
      EntriesAreBlocks(index.entries, |file1|, inserts, index.blockSize, mem1, data.Contents(), block);
    }

    /** Extend the match at an entry's block within its region and the rest of file2. */
    method Extend(c: nat, p: nat, last: nat) returns (len: nat, start: nat, pos: nat)
      requires Valid() && Covers(last) && last <= p < |file2| && c < |index.entries|
      requires index.entries[c].base + index.blockSize <= |Region(index.entries[c], mem1, data.Contents())|
      requires Block(index.entries[c], index.blockSize, mem1, data.Contents()) == mem2[p..p + index.blockSize]
      ensures last <= start <= p < start + len <= |file2|
      ensures CopyOf(index.entries[c].newData, start, pos, len)
      ensures pos == index.entries[c].base - (p - start) && Extended(index.entries[c].newData, last, start, pos, len)
    {
      hide *;
      ExtendFacts(c, p, last);
      var e := index.entries[c];
      if e.newData {
        len, start, pos := ExtendInData(e.base, p, last);
      } else {
        len, start, pos := ExtendInFile(e.base, p, last);
      }
    }

    lemma ExtendFacts(c: nat, p: nat, last: nat)
      requires Valid() && Covers(last) && last <= p < |file2| && c < |index.entries|
      requires index.entries[c].base + index.blockSize <= |Region(index.entries[c], mem1, data.Contents())|
      requires Block(index.entries[c], index.blockSize, mem1, data.Contents()) == mem2[p..p + index.blockSize]
      ensures if index.entries[c].newData then BlockIs(data.Contents(), index.entries[c].base, mem2[p..p + index.blockSize])
              else index.entries[c].base < |file1| && BlockIs(mem1, index.entries[c].base, mem2[p..p + index.blockSize])
    {
      hide Chained, AllDescribe, EncodeOps, Built, BlockSize, AllFit, AllEncodable, Indexed, Sum;
      if !index.entries[c].newData {
        BaseInside(index.entries, |file1|, inserts, index.blockSize, c);
      }
    }

    lemma Sizes()
      requires Valid()
      ensures |file2| + index.blockSize < |mem2| && mem2[..|file2|] == file2 && 2 <= index.blockSize && |file1| < |mem1|
      ensures data.Valid() && data.len <= data.buf.Length == |file2| && |data.Contents()| == data.len
    {
      hide Chained, AllDescribe, EncodeOps, Built, BlockSize, AllFit, AllEncodable, Sum;
    }

    method ExtendInData(base: nat, p: nat, last: nat) returns (len: nat, start: nat, pos: nat)
      requires Valid() && Covers(last) && last <= p < |file2| && BlockIs(data.Contents(), base, mem2[p..p + index.blockSize])
      ensures last <= start <= p < start + len <= |file2|
      ensures CopyOf(true, start, pos, len) && pos == base - (p - start) && Extended(true, last, start, pos, len)
    {
      hide EncodeOps, Built, Chained, AllDescribe, Indexed, AllNeeded, AllFit, AllEncodable, Sum, Maximal, Valid, Covers;
      Sizes();
      CoversMeans(last);
      SliceOfPrefix(data.buf[..], data.len, base, base + index.blockSize);
      len, start, pos := ExtendBlock(file2, mem2, p, last, data.buf[..], data.len, base, index.blockSize);
      SliceOfPrefix(data.buf[..], data.len, pos, pos + len);
    }

    method ExtendInFile(base: nat, p: nat, last: nat) returns (len: nat, start: nat, pos: nat)
      requires Valid() && last <= p < |file2| && base < |file1| && BlockIs(mem1, base, mem2[p..p + index.blockSize])
      ensures last <= start <= p < start + len <= |file2|
      ensures CopyOf(false, start, pos, len) && pos == base - (p - start) && Extended(false, last, start, pos, len)
    {
      hide EncodeOps, Built, Chained, AllDescribe, Indexed, AllNeeded, AllFit, AllEncodable, Sum, Maximal, Valid, Covers;
      Sizes();
      len, start, pos := ExtendBlock(file2, mem2, p, last, mem1, |file1|, base, index.blockSize);
      FileSlice(pos, pos + len);
    }

    lemma FileSlice(i: nat, j: nat)
      requires Valid() && i <= j <= |file1|
      ensures |file1| <= |mem1| && file1[i..j] == mem1[i..j]
    {
      SliceOfPrefix(mem1, |file1|, i, j);
    }

    static lemma SliceOfPrefix(s: seq<Byte>, n: nat, i: nat, j: nat)
      requires i <= j <= n <= |s|
      ensures s[..n][i..j] == s[i..j]
    {
    }

    static lemma BaseInside(entries: seq<Entry>, size: nat, lens: seq<nat>, blockSize: nat, c: nat)
      requires 0 < blockSize && Indexed(entries, size, lens, blockSize) && c < |entries| && !entries[c].newData
      ensures entries[c].base < size
    {
      assert Listed(entries, false, entries[c].base);
    }

    static method ExtendBlock(file2: seq<Byte>, mem2: seq<Byte>, p: nat, last: nat, mem: seq<Byte>, size: nat, base: nat, blockSize: nat)
      returns (len: nat, start: nat, pos: nat)
      requires |file2| < |mem2| && mem2[..|file2|] == file2 && last <= p < |file2|
      requires base < size < |mem| && 2 <= blockSize
      requires p + blockSize <= |mem2| && base + blockSize <= |mem|
      requires mem2[p..p + blockSize] == mem[base..base + blockSize]
      ensures last <= start <= p < start + len <= |file2|
      ensures pos + len <= size && mem[pos..pos + len] == file2[start..start + len]
      ensures pos == base - (p - start) && Maximal(mem2, |file2|, mem, size, last, start, pos, len)
    {
      var maxBack, maxForward := Min(p - last, base), Min(|file2| - p, size - base);
      ghost var known := Min(blockSize, maxForward + 1);
      Beginning(mem2, p, p + blockSize, known);
      Beginning(mem, base, base + blockSize, known);
      start, len := Match(mem2, p, mem, base, maxBack, maxForward, known);
      pos := base - (p - start);
      Beginning(mem2, start, start + len + 1, len);
      Beginning(mem, pos, pos + len + 1, len);
      SliceOfPrefix(mem2, |file2|, start, start + len);
    }

    static lemma Beginning(s: seq<Byte>, i: nat, j: nat, n: nat)
      requires i <= j <= |s| && n <= j - i
      ensures s[i..j][..n] == s[i..i + n]
    {
    }

    /** Describe file2 up to the end of a match: the bytes before it, if any, and the copy. */
    method Emit(last: nat, len: nat, start: nat, fromData: bool, pos: nat) returns (ok: bool)
      requires Valid() && Covers(last) && last <= start && 1 <= len && start + len <= |file2|
      requires CopyOf(fromData, start, pos, len) && Missed(last, start)
      modifies this`ops, this`inserts, this`places, control, control.buf, data, data.buf, index`entries, index.heads
      ensures Small() ==> ok
      ensures ok ==> Valid() && Covers(start + len) && fresh(Repr() - old(Repr()))
      ensures ok && start == last ==> inserts == old(inserts) && ops == old(ops) + [Op(fromData, len, pos)]
    {
      hide AllNeeded, AllUnknown, Chained, AllDescribe, EncodeOps, Built, BlockSize, AllFit, AllEncodable, Indexed, Sum;
      ghost var before := data.Contents();
      if start > last {
        ok := Insert(last, start - last);
        if !ok {
          return;
        }
      }
      assert fromData ==> data.Contents()[pos..pos + len] == before[pos..pos + len];
      ok := Copy(fromData, pos, start, len);
    }

    /** The sums at position p, by sliding if the last ones were taken just before it. */
    method Sums(p: nat, base: int, low0: int, high0: int) returns (low: int, high: int)
      requires Valid() && p < |file2|
      requires base >= 0 ==> IsCheck(index.table, mem2, base, index.blockSize, low0, high0)
      ensures IsCheck(index.table, mem2, p, index.blockSize, low, high)
    {
      hide LowSum, HighSum;
      if base >= 0 && base == p - 1 {
        low, high := SlideCheck(index.table, mem2, base, index.blockSize, low0, high0);
      } else {
        low, high := CalcCheck(index.table, mem2, p, index.blockSize);
      }
    }

    lemma MissedNone(a: nat)
      requires Valid()
      ensures Missed(a, a)
    {
    }

    lemma MissedOne(a: nat, p: nat)
      requires Valid() && Missed(a, p) && p < |file2| && !HasBlock(mem2[p..p + index.blockSize])
      ensures Missed(a, p + 1)
    {
      hide Known;
    }

    lemma MissedLess(a: nat, b: nat, p: nat)
      requires Valid() && Missed(a, p) && b <= p
      ensures Missed(a, b)
    {
    }

    /** Nothing has been done yet but to index file1. */
    ghost predicate JustIndexed()
      reads this, index
    {
      && ops == [] && inserts == [] && |index.entries| == count1 && 0 < index.blockSize && count1 == Blocks(|file1|, index.blockSize)
      && forall id :: 0 <= id < count1 ==> IsBlock(index.entries[id], 0, count1, id, index.blockSize, false)
    }

    /** Both files are the same, and so is what comes after them in memory. */
    ghost predicate SameFiles() {
      mem1 == mem2 && |file1| == |file2|
    }

    /** All of file2 is one copy. */
    ghost predicate OneCopy()
      reads this
    {
      inserts == [] && ops == [Op(false, |file2|, 0)]
    }

    /** The first block of file1 was indexed last, so in the same file it is found first, and the match goes on to the end. */
    lemma FirstMatch(len: nat, start: nat, fromData: bool, pos: int, c: int)
      requires Valid() && JustIndexed() && SameFiles() && file2 != []
      requires NoneAbove(index.entries, index.blockSize, mem1, data.Contents(), mem2, 0, c) && (len != 0 <==> c != NIL)
      requires len != 0 ==> start == 0 && pos == index.entries[c].base && fromData == index.entries[c].newData
      requires len != 0 ==> 0 <= pos && Extended(fromData, 0, start, pos, len)
      ensures len == |file2| && !fromData && start == pos == 0
    {
      hide Chained, AllDescribe, EncodeOps, Built, BlockSize, AllFit, AllEncodable, Indexed, Sum;
      BlocksFit(|file1|, index.blockSize);
      var first := count1 - 1;
      assert IsBlock(index.entries[first], 0, count1, first, index.blockSize, false);
      assert 0 * index.blockSize == 0;
      assert c == first;
    }

    /** How far file2 has been scanned if both files are the same: all of it after the first match. */
    ghost predicate AtOnce(p: nat, last: nat)
      reads this, index
    {
      SameFiles() ==> if p == 0 then last == 0 && JustIndexed() else p == last == |file2| && OneCopy()
    }

    lemma AtFirst(p: nat, last: nat)
      requires AtOnce(p, last) && SameFiles() && last <= p < |file2|
      ensures p == last == 0 && JustIndexed() && ops == [] && inserts == [] && file2 != []
    {
    }

    lemma AtLast(p: nat)
      requires SameFiles() ==> p == |file2| > 0 && inserts == [] && ops == [] + [Op(false, |file2|, 0)]
      ensures AtOnce(p, p)
    {
    }

    lemma NotTheSame(p: nat, last: nat)
      requires !SameFiles()
      ensures AtOnce(p, last)
    {
    }

    /** Look for a match at position p of file2, and go on after it or at the next byte. */
    method ScanOne(p: nat, last: nat, base: int, low0: int, high0: int) returns (ok: bool, next: nat, ended: nat, low: int, high: int)
      requires Valid() && Covers(last) && last <= p < |file2| && Missed(last, p) && AtOnce(p, last)
      requires base >= 0 ==> IsCheck(index.table, mem2, base, index.blockSize, low0, high0)
      modifies this`ops, this`inserts, this`places, control, control.buf, data, data.buf, index`entries, index.heads
      ensures Small() ==> ok
      ensures ok ==> Valid() && Covers(ended) && ended <= next <= |file2| && p < next && Missed(ended, next) && AtOnce(next, ended)
      ensures ok ==> fresh(Repr() - old(Repr()))
      ensures IsCheck(index.table, mem2, p, index.blockSize, low, high)
    {
      hide Valid, Covers, UpToDate, Files, Separate, Small, HasBlock, Missed, Justified, Extended, AtOnce, JustIndexed, SameFiles, OneCopy, NoneAbove, IsCheck;
      low, high := Sums(p, base, low0, high0);
      ghost var c;
      var len, start, fromData, pos;
      len, start, fromData, pos, c := FindMatch(low, high, p, last);
      if SameFiles() {
        AtFirst(p, last);
        FirstMatch(len, start, fromData, pos, c);
      }
      if len != 0 {
        var matchedPlus := len - (p - start);
        MissedLess(last, start, p);
        ok := Emit(last, len, start, fromData, pos);
        if !ok {
          next, ended := p, last;
          return;
        }
        next := p + matchedPlus;
        ended := next;
        MissedNone(next);
        AtLast(next);
      } else {
        NotTheSame(p + 1, last);
        MissedOne(last, p);
        ok, next, ended := true, p + 1, last;
      }
    }

    /** Go through file2 and describe all of it. */
    method Scan() returns (ok: bool)
      requires Valid() && Covers(0) && JustIndexed()
      modifies Repr()
      ensures Small() ==> ok
      ensures ok ==> Valid() && Covers(|file2|) && fresh(Repr() - old(Repr()))
      ensures ok && SameFiles() && file2 != [] ==> OneCopy()
    {
      hide JustIndexed, SameFiles, OneCopy, Missed, Chained, AllDescribe, EncodeOps, Built, BlockSize, AllFit, AllEncodable, IsCheck, Indexed,
           Sum, AllNeeded;
      var p: nat, last: nat, base: int, low: int, high: int := 0, 0, -2, 0, 0;
      MissedNone(0);
      while p < |file2|
        invariant Valid() && fresh(Repr() - old(Repr())) && Covers(last) && last <= p <= |file2| && Missed(last, p) && AtOnce(p, last)
        invariant base >= 0 ==> IsCheck(index.table, mem2, base, index.blockSize, low, high)
        decreases |file2| - p
      {
        var next;
        ok, next, last, low, high := ScanOne(p, last, base, low, high);
        if !ok {
          return;
        }
        p, base := next, p;
      }
      ok := true;
      if p > last {
        ok := Insert(last, p - last);
      }
    }

    lemma Sound()
      requires Valid()
      ensures control.Valid() && data.Valid() && data.len <= |file2| && 0 < index.blockSize <= 128 && Sum(inserts) == data.len
      ensures AllEncodable(ops) && control.Contents() == EncodeOps(ops) && |control.Contents()| == control.len && |data.Contents()| == data.len
    {
      hide Chained, AllDescribe, EncodeOps, Built, BlockSize, AllFit, AllEncodable, Sum;
    }

    /** What is put together in the end. */
    lemma Finished(bytes: seq<Byte>)
      requires Valid() && Covers(|file2|)
      requires index.blockSize <= 128 && data.Valid() && control.Valid() && data.len <= |file2| < INT_LIMIT
      requires bytes == Header(index.blockSize, control.len % LONG_LIMIT, data.len, |file2|) + (control.Contents() + data.Contents())
      ensures Small() ==> |bytes| <= LONG_LIMIT
      ensures |bytes| <= LONG_LIMIT ==> IsDelta(bytes, ops, data.Contents(), index.blockSize, |file2|)
      ensures AllFit(ops, file1, data.Contents()) && Built(ops, file1, data.Contents()) == file2
      ensures AllNeeded(mem1, |file1|, mem2, index.blockSize, places, inserts, data.Contents(), |file2|)
    {
      hide Chained, AllDescribe, EncodeOps, Built, BlockSize, AllFit, AllEncodable, Indexed, Sum, AllNeeded, Header;
      CoversMeans(|file2|);
      assert file2[..|file2|] == file2;
    }

    static lemma BlocksFit(size: nat, blockSize: nat)
      requires 0 < blockSize <= 128
      ensures size <= Blocks(size, blockSize) * blockSize < size + blockSize
    {
      var q, r := size / blockSize, size % blockSize;
      assert size == q * blockSize + r;
      assert (q + 1) * blockSize == q * blockSize + blockSize;
    }
  }

  // ----- The two operations

  /** The bytes of an output file: header, control stream, inserted data. */
  ghost predicate IsDelta(output: seq<Byte>, ops: seq<Op>, data: seq<Byte>, blockSize: nat, size: nat) {
    && blockSize < 0x1_0000 && size < 0x1_0000_0000 && |data| < 0x1_0000_0000
    && AllEncodable(ops) && |EncodeOps(ops)| < 0x1_0000_0000
    && output == Header(blockSize, |EncodeOps(ops)|, |data|, size) + (EncodeOps(ops) + data)
  }

  /** The lengths in the header do not reach past the end of the file. */
  predicate WellSized(delta: seq<Byte>) {
    HEADER_SIZE <= |delta| && HEADER_SIZE + ReadLong(delta, 4) + ReadLong(delta, 8) <= |delta|
  }

  /** What `patch` makes of any file. */
  function PatchOutcome(original: seq<Byte>, delta: seq<Byte>): Outcome
    requires WellSized(delta)
  {
    if ReadShort(delta, 0) != 1 then WrongVersion
    else
      var c, d := ReadLong(delta, 4), ReadLong(delta, 8);
      Replay(delta[HEADER_SIZE..HEADER_SIZE + c], original, delta[HEADER_SIZE + c..HEADER_SIZE + c + d], ReadLong(delta, 12), [])
  }

  /** Set up the buffers and index the original file. */
  method Start(file1: seq<Byte>, pad1: seq<Byte>, file2: seq<Byte>, pad2: seq<Byte>, table: Table) returns (b: Builder)
    requires |file1| < INT_LIMIT && |file2| < INT_LIMIT && |pad1| == BLOCKPAD && |pad2| == BLOCKPAD
    ensures fresh(b.Repr()) && b.Valid() && b.Covers(0) && b.JustIndexed()
    ensures b.file1 == file1 && b.file2 == file2 && b.mem1 == file1 + pad1 && b.mem2 == file2 + pad2
    ensures b.index.blockSize == BlockSize(|file2|)
  {
    hide BlockSize, Blocks, NextPrime, EncodeOps, Built, Chained, AllDescribe;
    var blockSize := BlockSize(|file2|);
    var data := new ByteArray.Reserved(|file2|);
    var control := new ByteArray.Reserved(1024);
    var prime := NextPrime(Blocks(|file1|, blockSize));
    var index := new Index(table, blockSize, prime, file1 + pad1);
    b := new Builder(file1, pad1, file2, pad2, data, control, index);
    b.IndexOriginal();
  }

  /** The data that a delta brings along. */
  ghost function InsertedData(delta: seq<Byte>): seq<Byte>
    requires WellSized(delta)
  {
    delta[HEADER_SIZE + ReadLong(delta, 4)..HEADER_SIZE + ReadLong(delta, 4) + ReadLong(delta, 8)]
  }

  /** The delta of a file against itself. */
  ghost function SameFileDelta(size: nat): seq<Byte>
    requires 0 < size < MAX_LEN
  {
    var control := EncodeOp(Op(false, size, 0));
    Header(BlockSize(size), |control|, 0, size) + control
  }

  /**
   Describe file2 as a delta against file1.  None stands for a failed assertion, which only a file of 512 MB can
   bring about.  An output that is longer than a header can say is of no use.  The inserted data is
   made of the stretches of file2 at the places returned, of the lengths returned, none of which could have been copied.
   */
  method Diff(file1: seq<Byte>, pad1: seq<Byte>, file2: seq<Byte>, pad2: seq<Byte>, table: Table)
    returns (output: Option<seq<Byte>>, ghost places: seq<nat>, ghost lens: seq<nat>)
    requires |file1| < INT_LIMIT && |file2| < INT_LIMIT && |pad1| == BLOCKPAD && |pad2| == BLOCKPAD
    ensures |file1| < MAX_LEN && |file2| < MAX_LEN ==> output.Some? && |output.value| <= LONG_LIMIT
    ensures output.Some? && |output.value| <= LONG_LIMIT ==>
              WellSized(output.value) && PatchOutcome(file1, output.value) == Done(file2)
    ensures output.Some? && |output.value| <= LONG_LIMIT ==>
              WellSized(output.value)
              && AllNeeded(file1 + pad1, |file1|, file2 + pad2, BlockSize(|file2|), places, lens, InsertedData(output.value), |file2|)
    ensures file1 == file2 && pad1 == pad2 && 0 < |file1| < MAX_LEN ==> output == Some(SameFileDelta(|file1|))
  {
    hide Replay, EncodeOps, Built, Header, Chained, AllDescribe, PatchOutcome, WellSized, Indexed, Sum, AllEncodable, AllFit, AllNeeded, InsertedData,
         BlockSize, EncodeOp, Builder.Valid, Builder.Covers, Builder.JustIndexed, IsDelta, SameFileDelta;
    var b := Start(file1, pad1, file2, pad2, table);
    var ok := b.Scan();
    places, lens := b.places, b.inserts;
    if !ok {
      return None, places, lens;
    }
    b.Sound();
    var blockSize := b.index.blockSize;
    var bytes := Header(blockSize, b.control.len % LONG_LIMIT, b.data.len, |file2|) + (b.control.Contents() + b.data.Contents());
    output := Some(bytes);
    b.Finished(bytes);
    if |bytes| <= LONG_LIMIT {
      DeltaRebuilds(bytes, b.ops, file1, b.data.Contents(), file2, blockSize);
    }
    if file1 == file2 && pad1 == pad2 && 0 < |file1| < MAX_LEN {
      OneCopyDelta(bytes, |file1|, b.data.Contents(), b.inserts);
    }
  }

  lemma OneCopyDelta(output: seq<Byte>, size: nat, data: seq<Byte>, inserts: seq<nat>)
    requires 0 < size < MAX_LEN && inserts == [] && |data| == Sum(inserts)
    requires var control := EncodeOps([Op(false, size, 0)]);
             output == Header(BlockSize(size), |control| % LONG_LIMIT, |data|, size) + (control + data)
    ensures output == SameFileDelta(size)
  {
    hide Header, BlockSize, EncodeOp;
    var op := Op(false, size, 0);
    Builder.EncodedSize(op);
    assert data == [];
    assert EncodeOps([op]) == EncodeOp(op);
  }

  lemma ThreeParts(h: seq<Byte>, c: seq<Byte>, d: seq<Byte>)
    ensures var s := h + (c + d);
            |s| == |h| + |c| + |d| && s[|h|..|h| + |c|] == c && s[|h| + |c|..|h| + |c| + |d|] == d
  {
  }

  /** Patching with the delta of operations that build a file gives that file. */
  lemma DeltaRebuilds(output: seq<Byte>, ops: seq<Op>, file1: seq<Byte>, data: seq<Byte>, file2: seq<Byte>, blockSize: nat)
    requires IsDelta(output, ops, data, blockSize, |file2|)
    requires AllFit(ops, file1, data) && Built(ops, file1, data) == file2
    ensures WellSized(output) && PatchOutcome(file1, output) == Done(file2) && InsertedData(output) == data
  {
    hide Header, Replay, EncodeOps, Built;
    var control := EncodeOps(ops);
    var rest := control + data;
    ReadHeader(blockSize, |control|, |data|, |file2|, rest);
    ThreeParts(Header(blockSize, |control|, |data|, |file2|), control, data);
    ReplayEncoded(ops, file1, data, |file2|, []);
    assert [] + file2 == file2;
  }

  /** Read the length of an operation, from the bytes left of the control stream. */
  method ReadLen(s: seq<Byte>) returns (ok: bool, fromData: bool, len: nat, used: nat)
    requires s != []
    ensures ok == DecodeLen(s).Some?
    ensures ok ==> (fromData, len) == DecodeLen(s).value && used == LenSize(s[0]) <= |s|
  {
    fromData, len := s[0] >= 0x80, 0;
    var tag, first := s[0] % 0x80 / 0x20, s[0] % 0x20;
    if tag == 3 {
      used := 4;
      ok := |s| >= 4;
      if ok {
        len := Spell(first, s[1], s[2], s[3]);
      }
    } else if tag == 2 {
      used := 3;
      ok := |s| >= 3;
      if ok {
        len := Spell(0, first, s[1], s[2]);
      }
    } else if tag == 1 {
      used := 2;
      ok := |s| >= 2;
      if ok {
        len := Spell(0, 0, first, s[1]);
      }
    } else {
      used, ok, len := 1, true, first;
    }
  }

  /** Read the position of an operation likewise; there may be no bytes left. */
  method ReadPos(s: seq<Byte>) returns (ok: bool, pos: nat, used: nat)
    ensures ok == DecodePos(s).Some?
    ensures ok ==> pos == DecodePos(s).value && s != [] && used == PosSize(s[0]) <= |s|
  {
    ok, pos, used := false, 0, 0;
    if s == [] {
      return;
    }
    var tag, first := s[0] / 0x40, s[0] % 0x40;
    if tag == 3 {
      used := 4;
      ok := |s| >= 4;
      if ok {
        pos := Spell(first, s[1], s[2], s[3]);
      }
    } else if tag == 2 {
      used := 3;
      ok := |s| >= 3;
      if ok {
        pos := Spell(0, first, s[1], s[2]);
      }
    } else if tag == 1 {
      used := 2;
      ok := |s| >= 2;
      if ok {
        pos := Spell(0, 0, first, s[1]);
      }
    } else {
      used, ok, pos := 1, true, first;
    }
  }

  /** Rebuild a file from the original and a delta; a failed assertion is an outcome of its own. */
  method Patch(file1: seq<Byte>, delta: seq<Byte>, output: ByteArray) returns (r: Outcome)
    requires WellSized(delta) && output.Valid()
    modifies output, output.buf
    ensures output.Valid()
    ensures match PatchOutcome(file1, delta)
            case Done(s) => r.Done? && output.len == ReadLong(delta, 12) && |s| <= output.len && output.Contents()[..|s|] == s
                            && r.output == output.Contents()
            case failed => r == failed
  {
    hide Replay, Spell, ReadShort, ReadLong;
    if ReadShort(delta, 0) != 1 {
      return WrongVersion;
    }
    var controlL, dataL, total := ReadLong(delta, 4), ReadLong(delta, 8), ReadLong(delta, 12);
    var data := delta[HEADER_SIZE + controlL..HEADER_SIZE + controlL + dataL];
    var control := delta[HEADER_SIZE..HEADER_SIZE + controlL];
    output.Resize(total);
    var ok := Rebuild(file1, control, data, total, output);
    r := if ok then Done(output.Contents()) else AssertionFailed;
  }

  method Rebuild(file1: seq<Byte>, control0: seq<Byte>, data: seq<Byte>, total: nat, output: ByteArray) returns (ok: bool)
    requires output.Valid() && output.len == total
    modifies output.buf
    ensures output.buf == old(output.buf)
    ensures match Replay(control0, file1, data, total, [])
            case Done(s) => ok && |s| <= total && output.Contents()[..|s|] == s
            case AssertionFailed => !ok
            case WrongVersion => false
  {
    hide Replay;
    var control, dest := control0, 0;
    while control != []
      invariant 0 <= dest <= total && output.buf == old(output.buf)
      invariant Replay(control, file1, data, total, output.Contents()[..dest]) == Replay(control0, file1, data, total, [])
      decreases |control|
    {
      ReplayStep(control, file1, data, total, output.Contents()[..dest]);
      var okLen, fromData, len, n := ReadLen(control);
      if !okLen {
        return false;
      }
      var okPos, pos, m := ReadPos(control[n..]);
      if !okPos {
        return false;
      }
      if n + m == |control| && dest + len > total {
        len := total - dest;
      }
      var region := if fromData then data else file1;
      if dest + len > total || pos + len > |region| {
        return false;
      }
      ghost var before := output.Contents();
      output.Write(dest, region[pos..pos + len]);
      assert output.Contents()[..dest + len] == before[..dest] + region[pos..pos + len];
      dest := dest + len;
      control := control[n + m..];
    }
    ReplayStep(control, file1, data, total, output.Contents()[..dest]);
    ok := true;
  }

  /** One round of the loop of `patch`. */
  lemma ReplayStep(control: seq<Byte>, original: seq<Byte>, data: seq<Byte>, total: nat, output: seq<Byte>)
    ensures control == [] ==> Replay(control, original, data, total, output) == Done(output)
    ensures control != [] && DecodeOp(control) == None ==> Replay(control, original, data, total, output) == AssertionFailed
    ensures control != [] && DecodeOp(control).Some? && |output| <= total ==>
              var (op, n) := DecodeOp(control).value;
              var len := if n == |control| && |output| + op.len > total then total - |output| else op.len;
              var region := if op.fromData then data else original;
              Replay(control, original, data, total, output)
              == if |output| + len > total || op.pos + len > |region| then AssertionFailed
                 else Replay(control[n..], original, data, total, output + region[op.pos..op.pos + len])
  {
  }
}
