/**
 The hash index of cvsdelta: whole blocks of the original file, and of the data
 inserted so far, chained by the hash of their checksums.

 A chain runs from a bucket's newest entry to ever older ones.  An entry is named by
 its position in `entries`, which holds first check1, then check2.
 */
module BlockIndex {
  import opened Checksum

  /** The link that ends a chain. */
  const NIL := -1

  datatype Entry = Entry(low: int, high: int, next: int, base: nat, newData: bool)

  function Bucket(e: Entry, prime: nat): (h: int)
    requires 0 < prime && 0 <= e.low < WORD && 0 <= e.high < WORD
    ensures 0 <= h < prime
  {
    CalcHash(e.low, e.high) % prime
  }

  /** The region that an entry's block lies in. */
  function Region(e: Entry, original: seq<Byte>, data: seq<Byte>): seq<Byte> {
    if e.newData then data else original
  }

  /** The entry describes the block at its base. */
  ghost predicate Describes(e: Entry, t: Table, blockSize: nat, original: seq<Byte>, data: seq<Byte>) {
    IsCheck(t, Region(e, original, data), e.base, blockSize, e.low, e.high)
  }

  ghost predicate AllDescribe(entries: seq<Entry>, t: Table, blockSize: nat, original: seq<Byte>, data: seq<Byte>) {
    forall id :: 0 <= id < |entries| ==> Describes(entries[id], t, blockSize, original, data)
  }

  ghost predicate Hashable(entries: seq<Entry>) {
    forall id :: 0 <= id < |entries| ==> 0 <= entries[id].low < WORD && 0 <= entries[id].high < WORD
  }

  /** The newest of the first n entries that falls in bucket h. */
  ghost function Newest(entries: seq<Entry>, prime: nat, h: int, n: nat): (id: int)
    requires 0 < prime && n <= |entries| && Hashable(entries)
    ensures NIL <= id < n
    ensures id != NIL ==> Bucket(entries[id], prime) == h
  {
    if n == 0 then NIL
    else if Bucket(entries[n - 1], prime) == h then n - 1
    else Newest(entries, prime, h, n - 1)
  }

  /** Links and bucket heads chain up exactly the entries of each bucket, newest first. */
  ghost predicate Chained(entries: seq<Entry>, heads: seq<int>, prime: nat) {
    && 0 < prime == |heads| && Hashable(entries)
    && (forall id :: 0 <= id < |entries| ==> entries[id].next == Newest(entries, prime, Bucket(entries[id], prime), id))
    && forall h :: 0 <= h < prime ==> heads[h] == Newest(entries, prime, h, |entries|)
  }

  lemma {:induction false} NewestSame(entries: seq<Entry>, more: seq<Entry>, prime: nat, h: int, n: nat)
    requires 0 < prime && n <= |entries| && Hashable(entries) && Hashable(entries + more)
    ensures Newest(entries + more, prime, h, n) == Newest(entries, prime, h, n)
  {
    hide Bucket;
    if n > 0 {
      NewestSame(entries, more, prime, h, n - 1);
    }
  }

  lemma NewestOfAll(entries: seq<Entry>, e: Entry, prime: nat, h: int)
    requires 0 < prime && Hashable(entries) && 0 <= e.low < WORD && 0 <= e.high < WORD
    ensures Hashable(entries + [e])
    ensures Newest(entries + [e], prime, h, |entries| + 1) == if Bucket(e, prime) == h then |entries| else Newest(entries, prime, h, |entries|)
  {
    hide Bucket;
    NewestSame(entries, [e], prime, h, |entries|);
  }

  /** No entry of the bucket lies between the newest and the bound. */
  lemma {:induction false} NewestIsLast(entries: seq<Entry>, prime: nat, h: int, n: nat, id: int)
    requires 0 < prime && n <= |entries| && Hashable(entries)
    requires 0 <= id < n && Bucket(entries[id], prime) == h
    ensures id <= Newest(entries, prime, h, n)
  {
    hide Bucket;
    if id != n - 1 {
      NewestIsLast(entries, prime, h, n - 1, id);
    }
  }

  /** Adding an entry in front of its chain keeps all chains right. */
  lemma ChainedPush(entries: seq<Entry>, heads: seq<int>, prime: nat, e: Entry)
    requires Chained(entries, heads, prime) && 0 <= e.low < WORD && 0 <= e.high < WORD
    requires e.next == heads[Bucket(e, prime)]
    ensures Chained(entries + [e], heads[Bucket(e, prime) := |entries|], prime)
  {
    hide Bucket, Newest;
    var after := entries + [e];
    assert Hashable(after);
    forall id | 0 <= id < |after|
      ensures after[id].next == Newest(after, prime, Bucket(after[id], prime), id)
    {
      NewestSame(entries, [e], prime, Bucket(after[id], prime), id);
    }
    forall h | 0 <= h < prime
      ensures heads[Bucket(e, prime) := |entries|][h] == Newest(after, prime, h, |after|)
    {
      NewestOfAll(entries, e, prime, h);
    }
  }

  /** The block of an entry. */
  ghost function Block(e: Entry, blockSize: nat, original: seq<Byte>, data: seq<Byte>): seq<Byte>
    requires e.base + blockSize <= |Region(e, original, data)|
  {
    Region(e, original, data)[e.base..e.base + blockSize]
  }

  /** The n-th entry made when count blocks are indexed from position start on. */
  ghost predicate IsBlock(e: Entry, start: nat, count: nat, n: nat, blockSize: nat, newData: bool) {
    n < count && e.newData == newData && e.base == start + (count - 1 - n) * blockSize
  }

  /** An entry whose block equals the one looked for has its sums, and so is in its bucket. */
  lemma EqualBlockSameSums(e: Entry, t: Table, size: nat, original: seq<Byte>, data: seq<Byte>,
                           low: int, high: int, mem: seq<Byte>, p: nat)
    requires Describes(e, t, size, original, data) && IsCheck(t, mem, p, size, low, high)
    requires Block(e, size, original, data) == mem[p..p + size]
    ensures e.low == low && e.high == high
  {
    SameSums(t, Region(e, original, data), e.base, mem, p, size);
  }

  /** The test made along a chain: both sums, and then the bytes. */
  predicate Hit(e: Entry, size: nat, low: int, high: int, mem: seq<Byte>, p: nat, original: seq<Byte>, data: seq<Byte>)
    requires e.base + size <= |Region(e, original, data)| && p + size <= |mem|
  {
    low == e.low && high == e.high && mem[p..p + size] == Region(e, original, data)[e.base..e.base + size]
  }

  lemma MissDiffers(e: Entry, t: Table, size: nat, original: seq<Byte>, data: seq<Byte>,
                    low: int, high: int, mem: seq<Byte>, p: nat)
    requires Describes(e, t, size, original, data) && IsCheck(t, mem, p, size, low, high)
    requires !Hit(e, size, low, high, mem, p, original, data)
    ensures Block(e, size, original, data) != mem[p..p + size]
  {
    if Block(e, size, original, data) == mem[p..p + size] {
      EqualBlockSameSums(e, t, size, original, data, low, high, mem, p);
    }
  }

  /** Entries that a chain skips do not hold the block looked for. */
  lemma SkippedDiffer(entries: seq<Entry>, t: Table, prime: nat, size: nat, original: seq<Byte>, data: seq<Byte>,
                      low: int, high: int, mem: seq<Byte>, p: nat, n: nat, id: int)
    requires AllDescribe(entries, t, size, original, data) && Hashable(entries) && 0 < prime
    requires IsCheck(t, mem, p, size, low, high)
    requires n <= |entries| && Newest(entries, prime, CalcHash(low, high) % prime, n) < id < n
    ensures Block(entries[id], size, original, data) != mem[p..p + size]
  {
    hide CalcHash;
    assert Describes(entries[id], t, size, original, data);
    if Block(entries[id], size, original, data) == mem[p..p + size] {
      EqualBlockSameSums(entries[id], t, size, original, data, low, high, mem, p);
      NewestIsLast(entries, prime, CalcHash(low, high) % prime, n, id);
    }
  }

  /** No entry newer than c holds the block looked for. */
  ghost predicate NoneAbove(entries: seq<Entry>, size: nat, original: seq<Byte>, data: seq<Byte>, mem: seq<Byte>, p: nat, c: int) {
    && NIL <= c < |entries| && p + size <= |mem|
    && (forall id :: 0 <= id < |entries| ==> entries[id].base + size <= |Region(entries[id], original, data)|)
    && forall id :: c < id < |entries| ==> Block(entries[id], size, original, data) != mem[p..p + size]
  }

  ghost predicate OnChain(entries: seq<Entry>, prime: nat, h: int, c: int)
    requires 0 < prime
  {
    && NIL <= c < |entries|
    && (c != NIL ==> 0 <= entries[c].low < WORD && 0 <= entries[c].high < WORD && Bucket(entries[c], prime) == h)
  }

  lemma ChainBegins(entries: seq<Entry>, heads: seq<int>, t: Table, prime: nat, size: nat, original: seq<Byte>, data: seq<Byte>,
                    low: int, high: int, mem: seq<Byte>, p: nat)
    requires AllDescribe(entries, t, size, original, data) && Chained(entries, heads, prime)
    requires IsCheck(t, mem, p, size, low, high)
    ensures var h := CalcHash(low, high) % prime;
            OnChain(entries, prime, h, heads[h]) && NoneAbove(entries, size, original, data, mem, p, heads[h])
  {
    hide CalcHash;
    var c := heads[CalcHash(low, high) % prime];
    assert forall id :: 0 <= id < |entries| ==> Describes(entries[id], t, size, original, data);
    forall id | c < id < |entries|
      ensures Block(entries[id], size, original, data) != mem[p..p + size]
    {
      SkippedDiffer(entries, t, prime, size, original, data, low, high, mem, p, |entries|, id);
    }
  }

  lemma NextOnChain(entries: seq<Entry>, heads: seq<int>, prime: nat, h: int, c: int)
    requires Chained(entries, heads, prime) && OnChain(entries, prime, h, c) && c != NIL
    ensures entries[c].next == Newest(entries, prime, h, c) && OnChain(entries, prime, h, entries[c].next)
  {
    hide CalcHash;
  }

  lemma NoneAboveNext(entries: seq<Entry>, t: Table, prime: nat, size: nat, original: seq<Byte>, data: seq<Byte>,
                      low: int, high: int, mem: seq<Byte>, p: nat, c: int)
    requires AllDescribe(entries, t, size, original, data) && Hashable(entries) && 0 < prime
    requires IsCheck(t, mem, p, size, low, high)
    requires c != NIL && NoneAbove(entries, size, original, data, mem, p, c)
    requires Block(entries[c], size, original, data) != mem[p..p + size]
    ensures NoneAbove(entries, size, original, data, mem, p, Newest(entries, prime, CalcHash(low, high) % prime, c))
  {
    hide CalcHash, Bucket, Block, AllDescribe, LowSum, HighSum;
    var next := Newest(entries, prime, CalcHash(low, high) % prime, c);
    forall id | next < id < c
      ensures Block(entries[id], size, original, data) != mem[p..p + size]
    {
      SkippedDiffer(entries, t, prime, size, original, data, low, high, mem, p, c, id);
    }
  }

  lemma ChainGoesOn(entries: seq<Entry>, heads: seq<int>, t: Table, prime: nat, size: nat, original: seq<Byte>, data: seq<Byte>,
                    low: int, high: int, mem: seq<Byte>, p: nat, c: int)
    requires AllDescribe(entries, t, size, original, data) && Chained(entries, heads, prime)
    requires IsCheck(t, mem, p, size, low, high)
    requires OnChain(entries, prime, CalcHash(low, high) % prime, c) && c != NIL
    requires NoneAbove(entries, size, original, data, mem, p, c)
    requires !Hit(entries[c], size, low, high, mem, p, original, data)
    ensures OnChain(entries, prime, CalcHash(low, high) % prime, entries[c].next)
    ensures entries[c].next < c && NoneAbove(entries, size, original, data, mem, p, entries[c].next)
  {
    hide CalcHash, Hit, Bucket, Newest, Block, OnChain, LowSum, HighSum;
    NextOnChain(entries, heads, prime, CalcHash(low, high) % prime, c);
    assert Describes(entries[c], t, size, original, data);
    MissDiffers(entries[c], t, size, original, data, low, high, mem, p);
    NoneAboveNext(entries, t, prime, size, original, data, low, high, mem, p, c);
  }

  lemma ChainEnds(entries: seq<Entry>, t: Table, size: nat, original: seq<Byte>, data: seq<Byte>,
                  low: int, high: int, mem: seq<Byte>, p: nat, c: int)
    requires AllDescribe(entries, t, size, original, data) && NoneAbove(entries, size, original, data, mem, p, c)
    requires c != NIL ==> Hit(entries[c], size, low, high, mem, p, original, data)
    ensures c != NIL ==> Block(entries[c], size, original, data) == mem[p..p + size]
    ensures c == NIL ==> forall id :: 0 <= id < |entries| ==> Block(entries[id], size, original, data) != mem[p..p + size]
  {
  }

  // ----- Which blocks are indexed

  /** Position q begins a whole block of the region of so many bytes from start on, cut into blocks. */
  ghost predicate Aligned(start: int, bytes: int, blockSize: nat, q: int)
    requires 0 < blockSize
  {
    start <= q && q + blockSize <= start + bytes && (q - start) % blockSize == 0
  }

  ghost function Sum(lens: seq<nat>): nat {
    if lens == [] then 0 else Sum(lens[..|lens| - 1]) + lens[|lens| - 1]
  }

  lemma SumMore(lens: seq<nat>, len: nat)
    ensures Sum(lens + [len]) == Sum(lens) + len
  {
    assert (lens + [len])[..|lens|] == lens;
  }

  /** Position q of the inserted data begins a whole block of one of the insertions, which had these lengths. */
  ghost predicate DataBlock(lens: seq<nat>, blockSize: nat, q: int)
    requires 0 < blockSize
  {
    && lens != []
    && var before := lens[..|lens| - 1];
       DataBlock(before, blockSize, q) || Aligned(Sum(before), lens[|lens| - 1], blockSize, q)
  }

  /** Position q of the original file begins a block; the last one may end in the padding. */
  ghost predicate OriginalBlock(size: nat, blockSize: nat, q: int)
    requires 0 < blockSize
  {
    0 <= q < size && q % blockSize == 0
  }

  /** Some entry stands for the block at q of the original file, or of the inserted data. */
  ghost predicate Listed(entries: seq<Entry>, newData: bool, q: int) {
    exists id :: 0 <= id < |entries| && entries[id].newData == newData && entries[id].base == q
  }

  /** The index holds the blocks of the original file and of every insertion, and nothing else. */
  ghost predicate Indexed(entries: seq<Entry>, size: nat, lens: seq<nat>, blockSize: nat)
    requires 0 < blockSize
  {
    && (forall q :: Listed(entries, false, q) <==> OriginalBlock(size, blockSize, q))
    && forall q :: Listed(entries, true, q) <==> DataBlock(lens, blockSize, q)
  }

  ghost predicate BlockIs(region: seq<Byte>, q: int, block: seq<Byte>) {
    0 <= q && q + |block| <= |region| && region[q..q + |block|] == block
  }

  /** The block of some entry is the one given. */
  ghost predicate EntryHasBlock(entries: seq<Entry>, newData: bool, region: seq<Byte>, block: seq<Byte>) {
    exists id :: 0 <= id < |entries| && entries[id].newData == newData && BlockIs(region, entries[id].base, block)
  }

  /** Going through the entries is going through all blocks. */
  lemma EntriesAreBlocks(entries: seq<Entry>, size: nat, lens: seq<nat>, blockSize: nat, original: seq<Byte>, data: seq<Byte>, block: seq<Byte>)
    requires 0 < blockSize && Indexed(entries, size, lens, blockSize)
    ensures EntryHasBlock(entries, false, original, block) <==> exists q :: OriginalBlock(size, blockSize, q) && BlockIs(original, q, block)
    ensures EntryHasBlock(entries, true, data, block) <==> exists q :: DataBlock(lens, blockSize, q) && BlockIs(data, q, block)
  {
    hide OriginalBlock, DataBlock, BlockIs;
    if q :| OriginalBlock(size, blockSize, q) && BlockIs(original, q, block) {
      assert Listed(entries, false, q);
    }
    if q :| DataBlock(lens, blockSize, q) && BlockIs(data, q, block) {
      assert Listed(entries, true, q);
    }
    if id :| 0 <= id < |entries| && entries[id].newData == false && BlockIs(original, entries[id].base, block) {
      assert Listed(entries, false, entries[id].base);
    }
    if id :| 0 <= id < |entries| && entries[id].newData == true && BlockIs(data, entries[id].base, block) {
      assert Listed(entries, true, entries[id].base);
    }
  }

  /** What was found, or not found, among the entries. */
  lemma SearchedEntries(entries: seq<Entry>, t: Table, blockSize: nat, original: seq<Byte>, data: seq<Byte>, block: seq<Byte>, c: int)
    requires |block| == blockSize && AllDescribe(entries, t, blockSize, original, data) && NIL <= c < |entries|
    requires c != NIL ==> Block(entries[c], blockSize, original, data) == block
    requires c == NIL ==> forall id :: 0 <= id < |entries| ==> Block(entries[id], blockSize, original, data) != block
    ensures c != NIL <==> EntryHasBlock(entries, false, original, block) || EntryHasBlock(entries, true, data, block)
  {
    if c != NIL {
      assert BlockIs(Region(entries[c], original, data), entries[c].base, block);
    } else {
      forall id | 0 <= id < |entries|
        ensures !BlockIs(Region(entries[id], original, data), entries[id].base, block)
      {
        assert Block(entries[id], blockSize, original, data) != block;
      }
    }
  }

  /** The n-th block counted from the last one of count begins at an aligned position. */
  lemma BlockIsAligned(start: nat, count: nat, n: nat, blockSize: nat)
    requires 0 < blockSize && n < count
    ensures Aligned(start, count * blockSize, blockSize, start + (count - 1 - n) * blockSize)
  {
    assert count * blockSize == (count - 1 - n) * blockSize + (n + 1) * blockSize;
    MultipleIsAligned(count - 1 - n, blockSize);
  }

  lemma MultipleIsAligned(k: nat, blockSize: nat)
    requires 0 < blockSize
    ensures k * blockSize % blockSize == 0
  {
    var q := k * blockSize / blockSize;
    assert 0 <= k * blockSize - q * blockSize < blockSize;
    assert (k - q) * blockSize == k * blockSize - q * blockSize == -((q - k) * blockSize);
    if k > q {
      AtLeastOnce(k - q, blockSize);
    } else if k < q {
      AtLeastOnce(q - k, blockSize);
    }
  }

  lemma AtLeastOnce(n: int, blockSize: nat)
    requires 1 <= n
    ensures blockSize <= n * blockSize
  {
  }

  /** An aligned position is that of a block. */
  lemma AlignedIsBlock(start: nat, count: nat, blockSize: nat, q: int) returns (n: nat)
    requires 0 < blockSize && Aligned(start, count * blockSize, blockSize, q)
    ensures n < count && q == start + (count - 1 - n) * blockSize
  {
    var k := (q - start) / blockSize;
    assert k * blockSize == q - start;
    assert k < count;
    n := count - 1 - k;
  }

  /** What has been added to the index. */
  lemma AddedBlocks(before: seq<Entry>, after: seq<Entry>, start: nat, count: nat, blockSize: nat, newData: bool, q: int)
    requires 0 < blockSize && |after| == |before| + count && after[..|before|] == before
    requires forall id :: |before| <= id < |after| ==> IsBlock(after[id], start, count, id - |before|, blockSize, newData)
    ensures Listed(after, !newData, q) <==> Listed(before, !newData, q)
    ensures Listed(after, newData, q) <==> Listed(before, newData, q) || Aligned(start, count * blockSize, blockSize, q)
  {
    hide Aligned;
    forall id | 0 <= id < |before|
      ensures after[id] == before[id]
    {
      assert after[id] == after[..|before|][id];
    }
    forall id | |before| <= id < |after|
      ensures after[id].newData == newData && Aligned(start, count * blockSize, blockSize, after[id].base)
    {
      assert IsBlock(after[id], start, count, id - |before|, blockSize, newData);
      BlockIsAligned(start, count, id - |before|, blockSize);
    }
    if Aligned(start, count * blockSize, blockSize, q) {
      var n := AlignedIsBlock(start, count, blockSize, q);
      assert IsBlock(after[|before| + n], start, count, n, blockSize, newData);
    }
  }

  /** With all blocks of the original file, the index is complete as long as nothing has been inserted. */
  lemma OriginalIndexed(entries: seq<Entry>, size: nat, count: nat, blockSize: nat)
    requires 0 < blockSize && |entries| == count && size <= count * blockSize < size + blockSize
    requires forall id :: 0 <= id < count ==> IsBlock(entries[id], 0, count, id, blockSize, false)
    ensures Indexed(entries, size, [], blockSize)
  {
    forall q
      ensures Listed(entries, false, q) <==> OriginalBlock(size, blockSize, q)
      ensures !Listed(entries, true, q)
    {
      AddedBlocks([], entries, 0, count, blockSize, false, q);
      if q % blockSize == 0 {
        WholeOrPadded(size, count, blockSize, q);
      }
    }
  }

  /** Of the multiples of the block size, those inside the file begin the blocks. */
  lemma WholeOrPadded(size: nat, count: nat, blockSize: nat, q: int)
    requires 0 < blockSize && size <= count * blockSize < size + blockSize && q % blockSize == 0
    ensures 0 <= q < size <==> 0 <= q && q + blockSize <= count * blockSize
  {
    if 0 <= q < size {
      QuotientOf(q, blockSize);
      EndsInside(q / blockSize, count, blockSize);
    }
  }

  /** Adding the whole blocks of one more insertion completes it again. */
  lemma InsertionIndexed(before: seq<Entry>, after: seq<Entry>, size: nat, lens: seq<nat>, len: nat, blockSize: nat)
    requires 0 < blockSize && Indexed(before, size, lens, blockSize)
    requires |after| == |before| + len / blockSize && after[..|before|] == before
    requires forall id :: |before| <= id < |after| ==> IsBlock(after[id], Sum(lens), len / blockSize, id - |before|, blockSize, true)
    ensures Indexed(after, size, lens + [len], blockSize) && Sum(lens + [len]) == Sum(lens) + len
  {
    assert (lens + [len])[..|lens|] == lens;
    hide IsBlock;
    forall q
      ensures Listed(after, false, q) <==> Listed(before, false, q)
      ensures Listed(after, true, q) <==> DataBlock(lens + [len], blockSize, q)
    {
      AddedBlocks(before, after, Sum(lens), len / blockSize, blockSize, true, q);
      WholeBlocksOnly(Sum(lens), len, blockSize, q);
    }
  }

  lemma QuotientOf(n: nat, blockSize: nat)
    requires 0 < blockSize
    ensures 0 <= n / blockSize * blockSize <= n < n / blockSize * blockSize + blockSize
    ensures n % blockSize == 0 ==> n / blockSize * blockSize == n
  {
    assert n == n / blockSize * blockSize + n % blockSize;
  }

  /** If a block begins before the end of c blocks, it ends there at the latest. */
  lemma EndsInside(k: int, c: int, blockSize: nat)
    requires 0 < blockSize && k * blockSize < c * blockSize
    ensures k * blockSize + blockSize <= c * blockSize
  {
    assert (c - k) * blockSize == c * blockSize - k * blockSize == -((k - c) * blockSize);
    if k > c {
      AtLeastOnce(k - c, blockSize);
    } else if k < c {
      AtLeastOnce(c - k, blockSize);
    }
  }

  /** A piece at the end that is no whole block holds none. */
  lemma WholeBlocksOnly(start: nat, len: nat, blockSize: nat, q: int)
    requires 0 < blockSize
    ensures 0 <= len / blockSize * blockSize <= len
    ensures Aligned(start, len / blockSize * blockSize, blockSize, q) <==> Aligned(start, len, blockSize, q)
  {
    var c := len / blockSize;
    QuotientOf(len, blockSize);
    if Aligned(start, len, blockSize, q) {
      var k := (q - start) / blockSize;
      QuotientOf(q - start, blockSize);
      EndsInside(k, c, blockSize);
    }
  }

  /** More data does not disturb the blocks already indexed. */
  lemma MoreData(entries: seq<Entry>, t: Table, blockSize: nat, original: seq<Byte>, data: seq<Byte>, more: seq<Byte>)
    requires AllDescribe(entries, t, blockSize, original, data)
    ensures AllDescribe(entries, t, blockSize, original, data + more)
  {
    forall id | 0 <= id < |entries|
      ensures Describes(entries[id], t, blockSize, original, data + more)
    {
      var e := entries[id];
      if e.newData {
        assert data[e.base..e.base + blockSize] == (data + more)[e.base..e.base + blockSize];
        SameSums(t, data, e.base, data + more, e.base, blockSize);
      }
    }
  }

  lemma DescribesMore(entries: seq<Entry>, t: Table, blockSize: nat, original: seq<Byte>, data: seq<Byte>, e: Entry)
    requires AllDescribe(entries, t, blockSize, original, data) && Describes(e, t, blockSize, original, data)
    ensures AllDescribe(entries + [e], t, blockSize, original, data)
  {
    hide Describes;
  }

  class Index {
    const table: Table
    const blockSize: nat
    const prime: nat
    const heads: array<int>
    var entries: seq<Entry>

    ghost predicate Valid(original: seq<Byte>, data: seq<Byte>)
      reads this, heads
    {
      && 0 < blockSize
      && AllDescribe(entries, table, blockSize, original, data)
      && Chained(entries, heads[..], prime)
    }

    constructor (table: Table, blockSize: nat, prime: nat, ghost original: seq<Byte>)
      requires 0 < blockSize && 0 < prime
      ensures this.table == table && this.blockSize == blockSize && this.prime == prime
      ensures entries == [] && fresh(heads) && Valid(original, [])
    {
      this.table, this.blockSize, this.prime := table, blockSize, prime;
      heads := new int[prime](_ => NIL);
      entries := [];
    }

    /** Put the block at base in front of its chain. */
    method Add(base: nat, newData: bool, original: seq<Byte>, data: seq<Byte>)
      requires Valid(original, data) && base + blockSize <= |if newData then data else original|
      modifies this`entries, heads
      ensures Valid(original, data) && |entries| == |old(entries)| + 1 && entries[..|old(entries)|] == old(entries)
      ensures entries[|old(entries)|].base == base && entries[|old(entries)|].newData == newData
    {
      assert 0 < prime == heads.Length;
      hide CalcHash, Chained, AllDescribe;
      var low, high := CalcCheck(table, if newData then data else original, base, blockSize);
      var h := CalcHash(low, high) % prime;
      var e := Entry(low, high, heads[h], base, newData);
      ghost var before := heads[..];
      ChainedPush(entries, before, prime, e);
      DescribesMore(entries, table, blockSize, original, data, e);
      heads[h] := |entries|;
      assert heads[..] == before[h := |entries|];
      entries := entries + [e];
    }

    /** Index count whole blocks from position start of a region on, the last one first. */
    method AddBlocks(start: nat, count: nat, newData: bool, original: seq<Byte>, data: seq<Byte>)
      requires Valid(original, data) && start + count * blockSize <= |if newData then data else original|
      modifies this`entries, heads
      ensures Valid(original, data) && |entries| == |old(entries)| + count && entries[..|old(entries)|] == old(entries)
      ensures forall id :: |old(entries)| <= id < |entries| ==>
                IsBlock(entries[id], start, count, id - |old(entries)|, blockSize, newData)
    {
      hide IsBlock, Chained, AllDescribe;
      var n := 0;
      while n < count
        invariant 0 <= n <= count
        invariant Valid(original, data) && |entries| == |old(entries)| + n && entries[..|old(entries)|] == old(entries)
        invariant forall id :: |old(entries)| <= id < |entries| ==>
                    IsBlock(entries[id], start, count, id - |old(entries)|, blockSize, newData)
      {
        BlockFits(count, n, blockSize);
        ghost var before := entries;
        Add(start + (count - 1 - n) * blockSize, newData, original, data);
        AddedIsBlock(entries[|before|], start, count, n, blockSize, newData);
        assert forall id :: 0 <= id < |before| ==> entries[id] == entries[..|before|][id];
        n := n + 1;
      }
    }

    lemma AddedIsBlock(e: Entry, start: nat, count: nat, n: nat, size: nat, newData: bool)
      requires n < count && e.newData == newData && e.base == start + (count - 1 - n) * size
      ensures IsBlock(e, start, count, n, size, newData)
    {
    }

    lemma BlockFits(count: nat, n: nat, size: nat)
      requires n < count
      ensures 0 <= (count - 1 - n) * size && (count - 1 - n) * size + size <= count * size
    {
      var k := count - 1 - n;
      assert count * size == (k + (n + 1)) * size;
      Distribute(k, n + 1, size);
      Distribute(n, 1, size);
    }

    lemma Distribute(a: nat, b: nat, size: nat)
      ensures (a + b) * size == a * size + b * size && 0 <= a * size
    {
    }

    /**
     Look for an indexed block equal to the one at position p of the given memory.
     It finds none exactly when there is none, and else the one that was indexed last.
     */
    method Find(low: int, high: int, mem: seq<Byte>, p: nat, original: seq<Byte>, data: seq<Byte>) returns (c: int)
      requires Valid(original, data) && IsCheck(table, mem, p, blockSize, low, high)
      ensures NIL <= c < |entries|
      ensures c != NIL ==> Block(entries[c], blockSize, original, data) == mem[p..p + blockSize]
      ensures NoneAbove(entries, blockSize, original, data, mem, p, c)
    {
      assert 0 < prime == heads.Length;
      hide CalcHash, AllDescribe, Chained, Hit;
      var h := CalcHash(low, high) % prime;
      c := heads[h];
      ChainBegins(entries, heads[..], table, prime, blockSize, original, data, low, high, mem, p);
      while c != NIL && !Hit(entries[c], blockSize, low, high, mem, p, original, data)
        invariant OnChain(entries, prime, h, c)
        invariant NoneAbove(entries, blockSize, original, data, mem, p, c)
        decreases c
      {
        ChainGoesOn(entries, heads[..], table, prime, blockSize, original, data, low, high, mem, p, c);
        c := entries[c].next;
      }
      ChainEnds(entries, table, blockSize, original, data, low, high, mem, p, c);
    }
  }
}
