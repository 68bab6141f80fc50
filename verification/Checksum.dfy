/**
 The rolling checksum of cvsdelta: two 16-bit sums over a block of bytes.

 `low` adds up the table values of the bytes; `high` adds up the values that `low`
 passes through.  Sliding the block by one byte updates both without rereading it.
 */
module Checksum {

  type Byte = b: int | 0 <= b < 256

  const WORD := 0x1_0000

  /** The table gives each byte a pseudo-random 16-bit number; any table will do. */
  type Table = t: seq<int> | |t| == 256 && forall b :: 0 <= b < 256 ==> 0 <= t[b] < WORD
    witness seq(256, _ => 0)

  ghost function LowSum(t: Table, mem: seq<Byte>, base: int, n: nat): int
    requires 0 <= base && base + n <= |mem|
  {
    if n == 0 then 0 else LowSum(t, mem, base, n - 1) + t[mem[base + n - 1]]
  }

  ghost function HighSum(t: Table, mem: seq<Byte>, base: int, n: nat): int
    requires 0 <= base && base + n <= |mem|
  {
    if n == 0 then 0 else HighSum(t, mem, base, n - 1) + LowSum(t, mem, base, n)
  }

  /** The two sums of a block, kept to 16 bits. */
  ghost predicate IsCheck(t: Table, mem: seq<Byte>, base: int, n: nat, low: int, high: int) {
    && 0 <= base && base + n <= |mem|
    && low == LowSum(t, mem, base, n) % WORD
    && high == HighSum(t, mem, base, n) % WORD
  }

  lemma OneMoreByte(t: Table, mem: seq<Byte>, base: nat, n: nat, low: int, high: int)
    requires base + n < |mem| && IsCheck(t, mem, base, n, low, high)
    ensures var l := (low + t[mem[base + n]]) % WORD;
            IsCheck(t, mem, base, n + 1, l, (high + l) % WORD)
  {
    var l, h := LowSum(t, mem, base, n), HighSum(t, mem, base, n);
    RoundLater(l, t[mem[base + n]]);
    RoundLater(h, (l + t[mem[base + n]]) % WORD);
    RoundLater(l + t[mem[base + n]], h);
  }

  lemma NoBytes(t: Table, mem: seq<Byte>, base: nat)
    requires base <= |mem|
    ensures IsCheck(t, mem, base, 0, 0, 0)
  {
  }

  method CalcCheck(t: Table, mem: seq<Byte>, base: nat, blockSize: nat) returns (low: int, high: int)
    requires base + blockSize <= |mem|
    ensures IsCheck(t, mem, base, blockSize, low, high)
  {
    low, high := 0, 0;
    NoBytes(t, mem, base);
    hide IsCheck;
    for n := 0 to blockSize
      invariant IsCheck(t, mem, base, n, low, high)
    {
      OneMoreByte(t, mem, base, n, low, high);
      low := (low + t[mem[base + n]]) % WORD;
      high := (high + low) % WORD;
    }
  }

  /** Sliding by one byte, before rounding to 16 bits. */
  lemma {:induction false} SlideSums(t: Table, mem: seq<Byte>, base: int, n: nat)
    requires 0 <= base && base + n + 1 <= |mem|
    ensures n > 0 ==> LowSum(t, mem, base + 1, n - 1) == LowSum(t, mem, base, n) - t[mem[base]]
    ensures LowSum(t, mem, base + 1, n) == LowSum(t, mem, base, n) - t[mem[base]] + t[mem[base + n]]
    ensures HighSum(t, mem, base + 1, n) == HighSum(t, mem, base, n) - t[mem[base]] * n + LowSum(t, mem, base + 1, n)
  {
    if n > 0 {
      SlideSums(t, mem, base, n - 1);
    }
  }

  lemma RoundLater(a: int, b: int)
    ensures (a % WORD + b) % WORD == (a + b) % WORD
  {
  }

  lemma RoundSlide(l: int, h: int, d0: int, gone: int, d1: int)
    ensures ((l % WORD - d0) % WORD + d1) % WORD == (l - d0 + d1) % WORD
    ensures ((h % WORD - gone) % WORD + (l - d0 + d1) % WORD) % WORD == (h - gone + (l - d0 + d1)) % WORD
  {
    RoundLater(l, -d0);
    RoundLater(l - d0, d1);
    RoundLater(h, -gone);
    RoundLater(h - gone, (l - d0 + d1) % WORD);
    RoundLater(l - d0 + d1, h - gone);
  }

  method SlideCheck(t: Table, mem: seq<Byte>, base: nat, blockSize: nat, low0: int, high0: int) returns (low: int, high: int)
    requires base + blockSize + 1 <= |mem|
    requires IsCheck(t, mem, base, blockSize, low0, high0)
    ensures IsCheck(t, mem, base + 1, blockSize, low, high)
  {
    var d0, d1 := t[mem[base]], t[mem[base + blockSize]];
    var gone := d0 * blockSize;
    low := (low0 - d0) % WORD;
    high := (high0 - gone) % WORD;
    low := (low + d1) % WORD;
    high := (high + low) % WORD;
    SlideSums(t, mem, base, blockSize);
    ghost var l, h := LowSum(t, mem, base, blockSize), HighSum(t, mem, base, blockSize);
    RoundSlide(l, h, d0, gone, d1);
  }

  /** Equal blocks have equal sums, wherever they lie. */
  lemma {:induction false} SameSums(t: Table, m1: seq<Byte>, b1: int, m2: seq<Byte>, b2: int, n: nat)
    requires 0 <= b1 && b1 + n <= |m1| && 0 <= b2 && b2 + n <= |m2|
    requires m1[b1..b1 + n] == m2[b2..b2 + n]
    ensures LowSum(t, m1, b1, n) == LowSum(t, m2, b2, n)
    ensures HighSum(t, m1, b1, n) == HighSum(t, m2, b2, n)
  {
    if n > 0 {
      assert m1[b1..b1 + n][..n - 1] == m1[b1..b1 + (n - 1)] && m2[b2..b2 + n][..n - 1] == m2[b2..b2 + (n - 1)];
      assert m1[b1 + n - 1] == m1[b1..b1 + n][n - 1] && m2[b2 + n - 1] == m2[b2..b2 + n][n - 1];
      SameSums(t, m1, b1, m2, b2, n - 1);
    }
  }

  /** The hash of a pair of sums, in 32-bit arithmetic. */
  function CalcHash(low: int, high: int): (h: int)
    requires 0 <= low < WORD && 0 <= high < WORD
    ensures 0 <= h < 0x1_0000_0000
  {
    var l, h := low as bv32, high as bv32;
    var it := (h >> 2) + (l << 3) + (h << 16);
    (it ^ h ^ l) as int
  }
}
