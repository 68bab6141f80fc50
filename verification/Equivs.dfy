/**
 `find_and_hash_each_line`: split a file into lines and give each line the number of
 its equivalence class, the same for both files.

 Classes are found through a hash table whose buckets are chains of classes.  Bucket
 -1 of the source, for incomplete lines, is entry 0 of the array here.
 */
module Equivs {
  import opened Text

  /** What a class stands for: the line without its newline, and whether it lacks one. */
  datatype Key = Key(line: seq<char>, incomplete: bool)

  /** An entry of the table; `next` is the next one in its bucket, 0 for none. */
  datatype EquivClass = EquivClass(next: nat, hash: bv32, line: seq<char>)

  /** Rotate the hash by 7 bits and add a character. */
  function HashStep(h: bv32, c: char): bv32 {
    (((c as int) % 256) as bv32) + ((h << 7) | (h >> 25))
  }

  function Hash(line: seq<char>): bv32 {
    if line == [] then 0 else HashStep(Hash(line[..|line| - 1]), line[|line| - 1])
  }

  /** The bucket of a class. */
  function Slot(key: Key, nbuckets: nat): (b: nat)
    requires 0 < nbuckets
    ensures b <= nbuckets && (b == 0 <==> key.incomplete)
  {
    if key.incomplete then 0 else 1 + (Hash(key.line) as nat) % nbuckets
  }

  /** The newest of the first n classes in a bucket; class 0 is no class. */
  ghost function Newest(keys: seq<Key>, nbuckets: nat, b: nat, n: nat): (k: nat)
    requires 0 < nbuckets && 1 <= n <= |keys|
    ensures k < n && (k != 0 ==> Slot(keys[k], nbuckets) == b)
    ensures forall j :: k < j < n ==> Slot(keys[j], nbuckets) != b
  {
    if n == 1 then 0
    else if Slot(keys[n - 1], nbuckets) == b then n - 1
    else Newest(keys, nbuckets, b, n - 1)
  }

  /** The table holds these classes, chained from newest to oldest in each bucket. */
  ghost predicate Chained(keys: seq<Key>, nbuckets: nat, heads: seq<int>, eqs: seq<EquivClass>) {
    && 0 < nbuckets && |heads| == nbuckets + 1 && 1 <= |keys| <= |eqs|
    && (forall b :: 0 <= b <= nbuckets ==> heads[b] == Newest(keys, nbuckets, b, |keys|))
    && (forall k :: 1 <= k < |keys| ==> Holds(keys, nbuckets, eqs[k], k))
  }

  ghost predicate Holds(keys: seq<Key>, nbuckets: nat, e: EquivClass, k: nat)
    requires 0 < nbuckets && 1 <= k < |keys|
  {
    && e.line == keys[k].line && e.hash == Hash(keys[k].line)
    && e.next == Newest(keys, nbuckets, Slot(keys[k], nbuckets), k)
  }

  /** No two classes are the same. */
  ghost predicate Distinct(keys: seq<Key>) {
    forall j, k :: 1 <= j < k < |keys| ==> keys[j] != keys[k]
  }

  lemma {:induction false} NewestSame(keys: seq<Key>, more: Key, nbuckets: nat, b: nat, n: nat)
    requires 0 < nbuckets && 1 <= n <= |keys|
    ensures Newest(keys + [more], nbuckets, b, n) == Newest(keys, nbuckets, b, n)
    decreases n
  {
    hide Slot;
    if n > 1 {
      assert (keys + [more])[n - 1] == keys[n - 1];
      NewestSame(keys, more, nbuckets, b, n - 1);
    }
  }

  /** A new class goes to the front of its bucket. */
  lemma AddClass(keys: seq<Key>, nbuckets: nat, heads: seq<int>, eqs: seq<EquivClass>, key: Key)
    requires Chained(keys, nbuckets, heads, eqs) && |keys| < |eqs|
    ensures var b, n := Slot(key, nbuckets), |keys|;
            heads[b] >= 0 && Chained(keys + [key], nbuckets, heads[b := n], eqs[n := EquivClass(heads[b], Hash(key.line), key.line)])
  {
    hide Slot;
    var b, n, more := Slot(key, nbuckets), |keys|, keys + [key];
    var e := EquivClass(heads[b], Hash(key.line), key.line);
    var heads', eqs' := heads[b := n], eqs[n := e];
    assert more[n] == key;
    forall c | 0 <= c <= nbuckets
      ensures heads'[c] == Newest(more, nbuckets, c, n + 1)
    {
      NewestSame(keys, key, nbuckets, c, n);
    }
    hide Newest;
    forall k | 1 <= k < n + 1
      ensures Holds(more, nbuckets, eqs'[k], k)
    {
      if k < n {
        assert Holds(keys, nbuckets, eqs[k], k) && more[k] == keys[k];
        NewestSame(keys, key, nbuckets, Slot(keys[k], nbuckets), k);
      } else {
        NewestSame(keys, key, nbuckets, b, n);
      }
    }
  }

  class Table {
    const nbuckets: nat
    const buckets: array<int>
    var equivs: array<EquivClass>
    var index: nat
    ghost var keys: seq<Key>

    ghost predicate Valid()
      reads this, buckets, equivs
    {
      && index == |keys| && 1 <= equivs.Length
      && Chained(keys, nbuckets, buckets[..], equivs[..]) && Distinct(keys)
    }

    /** An empty table; real classes start at 1. */
    constructor (nbuckets: nat, alloc: nat)
      requires 0 < nbuckets && 1 <= alloc
      ensures Valid() && index == 1 && fresh(buckets) && fresh(equivs)
    {
      this.nbuckets := nbuckets;
      buckets := new int[nbuckets + 1](_ => 0);
      equivs := new EquivClass[alloc](_ => EquivClass(0, 0, []));
      index := 1;
      keys := [Key([], false)];
    }

    /** Make room for one more class, doubling the table if it is full. */
    method Grow()
      requires Valid()
      modifies this`equivs
      ensures Valid() && index < equivs.Length && (equivs == old(equivs) || fresh(equivs))
    {
      if index == equivs.Length {
        var more := new EquivClass[2 * equivs.Length](_ => EquivClass(0, 0, []));
        var k := 0;
        while k < equivs.Length
          invariant 0 <= k <= equivs.Length && forall j :: 0 <= j < k ==> more[j] == equivs[j]
          modifies more
        {
          more[k] := equivs[k];
          k := k + 1;
        }
        MoreRoom(keys, nbuckets, buckets[..], equivs[..], more[..]);
        equivs := more;
      }
    }

    static lemma MoreRoom(keys: seq<Key>, nbuckets: nat, heads: seq<int>, eqs: seq<EquivClass>, more: seq<EquivClass>)
      requires Chained(keys, nbuckets, heads, eqs) && eqs <= more
      ensures Chained(keys, nbuckets, heads, more)
    {
      hide Newest, Slot, Holds;
      assert forall k :: 0 <= k < |eqs| ==> more[k] == eqs[k];
    }

    /** The class of a line: the one it already has, or a new one. */
    method ClassOf(line: seq<char>, incomplete: bool) returns (i: nat)
      requires Valid()
      modifies this, buckets, equivs
      ensures Valid() && 1 <= i < index && keys[i] == Key(line, incomplete)
      ensures old(keys) <= keys && (equivs == old(equivs) || fresh(equivs))
    {
      hide Newest, Hash;
      var h := Hash(line);
      ghost var key := Key(line, incomplete);
      var bucket := if incomplete then 0 else 1 + (h as nat) % nbuckets;
      assert bucket == Slot(key, nbuckets);
      i := Search(line, h, bucket, key);
      if i == 0 {
        Grow();
        i := index;
        AddClass(keys, nbuckets, buckets[..], equivs[..], key);
        equivs[i] := EquivClass(buckets[bucket], h, line);
        buckets[bucket] := i;
        index := index + 1;
        keys := keys + [key];
      }
    }

    lemma ValidSize()
      requires Valid()
      ensures index == |keys| && Distinct(keys)
    {
    }

    /** The class in the bucket that has this line, or 0. */
    method Search(line: seq<char>, h: bv32, bucket: nat, ghost key: Key) returns (i: nat)
      requires Valid() && key.line == line && h == Hash(line) && bucket == Slot(key, nbuckets)
      ensures i < index && (i != 0 ==> keys[i] == key) && (i == 0 ==> forall k :: 1 <= k < index ==> keys[k] != key)
    {
      hide Hash;
      ghost var m := index;
      i := buckets[bucket];
      while i != 0 && !(equivs[i].hash == h && equivs[i].line == line)
        invariant 1 <= m <= index && i == Newest(keys, nbuckets, bucket, m)
        invariant forall k :: m <= k < index ==> keys[k] != key
        decreases i
      {
        assert Holds(keys, nbuckets, equivs[..][i], i);
        m := i;
        i := equivs[i].next;
      }
      if i != 0 {
        assert Holds(keys, nbuckets, equivs[..][i], i);
      }
    }
  }

  // ----- Lines

  function KeyOf(line: Line): Key {
    if Ended(line) then Key(line[..|line| - 1], false) else Key(line, true)
  }

  /** The class tells lines apart, and a missing newline with them. */
  lemma KeyTells(x: Line, y: Line)
    ensures KeyOf(x) == KeyOf(y) <==> x == y
  {
    if Ended(x) && Ended(y) {
      assert x == x[..|x| - 1] + "\n" && y == y[..|y| - 1] + "\n";
    }
  }

  /** The lines as they were in the file, before a newline was added to the last. */
  function RealLines(lines: File, added: bool): (r: File)
    ensures |r| == |lines|
  {
    if added && lines != [] then lines[..|lines| - 1] + [Unended(lines[|lines| - 1])] else lines
  }

  function Unended(line: Line): Line {
    if line == [] then [] else line[..|line| - 1]
  }

  ghost predicate Classified(keys: seq<Key>, codes: seq<nat>, actual: File) {
    && |codes| <= |actual|
    && forall i :: 0 <= i < |codes| ==> 1 <= codes[i] < |keys| && keys[codes[i]] == KeyOf(actual[i])
  }

  lemma ClassifiedMore(keys: seq<Key>, codes: seq<nat>, actual: File, more: seq<Key>, code: nat)
    requires Classified(keys, codes, actual) && keys <= more && |codes| < |actual|
    requires 1 <= code < |more| && more[code] == KeyOf(actual[|codes|])
    ensures Classified(more, codes + [code], actual)
  {
    hide KeyOf;
    assert forall k :: 0 <= k < |keys| ==> more[k] == keys[k];
  }

  /** Classes of distinct keys tell lines of any file apart. */
  lemma SameCodeSameLine(keys: seq<Key>, codes0: seq<nat>, actual0: File, codes1: seq<nat>, actual1: File, i: nat, j: nat)
    requires Distinct(keys) && Classified(keys, codes0, actual0) && Classified(keys, codes1, actual1) && i < |codes0| && j < |codes1|
    ensures codes0[i] == codes1[j] <==> actual0[i] == actual1[j]
  {
    KeyTells(actual0[i], actual1[j]);
    hide KeyOf;
    var c, d := codes0[i], codes1[j];
    assert keys[c] == KeyOf(actual0[i]) && keys[d] == KeyOf(actual1[j]);
    if c < d {
      assert keys[c] != keys[d];
    } else if d < c {
      assert keys[d] != keys[c];
    }
  }

  /** Hash a line, up to its newline. */
  method HashLine(buffer: seq<char>, ip: nat, ghost line: Line, ghost rest: seq<char>, ghost end: nat) returns (h: bv32, p: nat)
    requires ip <= end <= |buffer| && buffer[ip..end] == line + rest && IsLine(line) && Ended(line)
    ensures p == ip + |line| && p <= end && h == Hash(line[..|line| - 1])
    ensures buffer[ip..p - 1] == line[..|line| - 1] && buffer[p..end] == rest
  {
    hide HashStep;
    h, p := 0, ip;
    assert forall k :: 0 <= k < |line| ==> buffer[ip + k] == (line + rest)[k] == line[k];
    while buffer[p] != '\n'
      invariant ip <= p < ip + |line| && h == Hash(line[..p - ip])
      decreases ip + |line| - p
    {
      h := HashStep(h, buffer[p]);
      assert line[..p + 1 - ip][..p - ip] == line[..p - ip];
      p := p + 1;
    }
    p := p + 1;
    assert buffer[p..end] == buffer[ip..end][|line|..];
    assert buffer[ip..p - 1] == buffer[ip..end][..|line| - 1];
  }

  /** The line that starts at ip, and whether it is incomplete. */
  method ClassifyLine(table: Table, buffer: seq<char>, ip: nat, suffixBegin: nat, added: bool, ghost lines: File, ghost n: nat, ghost begin: nat)
    returns (i: nat, p: nat, incomplete: bool)
    requires table.Valid() && ip <= suffixBegin <= |buffer| && n < |lines|
    requires AllEnded(lines) && buffer[ip..suffixBegin] == Flat(lines[n..]) && ip == StartOf(lines, begin, n)
    modifies table, table.buckets, table.equivs
    ensures table.Valid() && old(table.keys) <= table.keys && (table.equivs == old(table.equivs) || fresh(table.equivs))
    ensures ip < p <= suffixBegin && buffer[p..suffixBegin] == Flat(lines[n + 1..]) && p == StartOf(lines, begin, n + 1)
    ensures 1 <= i < |table.keys| && table.keys[i] == KeyOf(RealLines(lines, added && suffixBegin == |buffer|)[n])
    ensures p == suffixBegin <==> n + 1 == |lines|
    ensures incomplete <==> added && p == |buffer|
  {
    assert IsLine(lines[n]) && Ended(lines[n]);
    StartOfNext(lines, begin, n);
    hide Hash, Table.Valid, Flat, StartOf, AllEnded, IsLine;
    var h;
    h, p := HashLine(buffer, ip, lines[n], Flat(lines[n + 1..]), suffixBegin);
    incomplete := p == |buffer| && added;
    NoMoreText(lines, n + 1);
    assert p == suffixBegin <==> n + 1 == |lines| by {
      assert |buffer[p..suffixBegin]| == suffixBegin - p;
    }
    i := table.ClassOf(buffer[ip..p - 1], incomplete);
    assert Unended(lines[n]) == lines[n][..|lines[n]| - 1];
    hide RealLines, KeyOf, Ended;
    RealLine(lines, added && suffixBegin == |buffer|, n);
    table.ValidSize();
  }

  lemma RealLine(lines: File, added: bool, n: nat)
    requires n < |lines| && IsLine(lines[n]) && Ended(lines[n])
    ensures KeyOf(RealLines(lines, added)[n]) == Key(lines[n][..|lines[n]| - 1], added && n + 1 == |lines|)
  {
    var line := lines[n][..|lines[n]| - 1];
    assert !Ended(line);
  }

  /**
   Number the lines of a file between its common beginning and end.  If a newline had to be
   added at the end of the file and that matters, the last line is incomplete.
   */
  method FindAndHashEachLine(table: Table, buffer: seq<char>, prefixEnd: nat, suffixBegin: nat, added: bool, ghost lines: File)
    returns (cureqs: seq<nat>, linbuf: seq<nat>, end: nat)
    requires table.Valid() && prefixEnd <= suffixBegin <= |buffer|
    requires AllEnded(lines) && buffer[prefixEnd..suffixBegin] == Flat(lines)
    modifies table, table.buckets, table.equivs
    ensures table.Valid() && old(table.keys) <= table.keys && (table.equivs == old(table.equivs) || fresh(table.equivs))
    ensures |cureqs| == |lines| && Classified(table.keys, cureqs, RealLines(lines, added && suffixBegin == |buffer|))
    ensures |linbuf| == |lines| && forall i :: 0 <= i < |lines| ==> linbuf[i] == StartOf(lines, prefixEnd, i)
    ensures end == if lines != [] && added && suffixBegin == |buffer| then suffixBegin - 1 else suffixBegin
  {
    hide Hash, Table.Valid, Classified, Flat, StartOf, AllEnded, RealLines, KeyOf;
    cureqs, linbuf := [], [];
    var p, suffix := prefixEnd, suffixBegin;
    ghost var actual := RealLines(lines, added && suffixBegin == |buffer|);
    Beginning(table.keys, lines, actual, prefixEnd);
    while p < suffix
      invariant prefixEnd <= p <= suffix <= suffixBegin && |cureqs| <= |lines| && |linbuf| == |cureqs|
      invariant table.Valid() && old(table.keys) <= table.keys && (table.equivs == old(table.equivs) || fresh(table.equivs))
      invariant Classified(table.keys, cureqs, actual)
      invariant forall i :: 0 <= i < |linbuf| ==> linbuf[i] == StartOf(lines, prefixEnd, i)
      invariant if suffix < suffixBegin then p == suffix == suffixBegin - 1 && |cureqs| == |lines| && lines != [] && added && suffixBegin == |buffer|
                else buffer[p..suffixBegin] == Flat(lines[|cureqs|..]) && p == StartOf(lines, prefixEnd, |cureqs|)
                     && (|cureqs| == |lines| ==> lines == [] || !(added && suffixBegin == |buffer|))
    {
      ghost var n, keys := |cureqs|, table.keys;
      NoMoreText(lines, n);
      linbuf := linbuf + [p];
      var i, incomplete;
      i, p, incomplete := ClassifyLine(table, buffer, p, suffixBegin, added, lines, n, prefixEnd);
      if incomplete {
        p := p - 1;
        suffix := p;
      }
      ClassifiedMore(keys, cureqs, actual, table.keys, i);
      cureqs := cureqs + [i];
    }
    if suffix == suffixBegin {
      NoMoreText(lines, |cureqs|);
    }
    end := p;
  }

  lemma Beginning(keys: seq<Key>, lines: File, actual: File, begin: nat)
    ensures Classified(keys, [], actual) && lines[0..] == lines && StartOf(lines, begin, 0) == begin
  {
    assert lines[..0] == [];
  }
}
