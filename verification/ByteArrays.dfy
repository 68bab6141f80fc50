/** The growing byte buffer of cvsdelta. */
module ByteArrays {
  import opened Checksum

  class ByteArray {
    var buf: array<Byte>  // its length is the reserved size
    var len: nat

    ghost predicate Valid()
      reads this
    {
      len <= buf.Length
    }

    function Contents(): seq<Byte>
      requires Valid()
      reads this, buf
    {
      buf[..len]
    }

    constructor ()
      ensures Valid() && Contents() == [] && fresh(buf)
    {
      buf, len := new Byte[0], 0;
    }

    /** An empty buffer with room for l bytes. */
    constructor Reserved(l: nat)
      ensures Valid() && Contents() == [] && len == 0 && fresh(buf) && buf.Length == l
    {
      buf, len := new Byte[0], 0;
      new;
      Reserve(l);
    }

    /** Make room for l bytes; a buffer that has the room already stays where it is. */
    method Reserve(l: nat)
      requires Valid()
      modifies this`buf
      ensures Valid() && Contents() == old(Contents()) && len == old(len)
      ensures if l <= old(buf.Length) then buf == old(buf) else fresh(buf) && buf.Length == l
    {
      if l > buf.Length {
        var bigger := new Byte[l];
        for i := 0 to len
          invariant buf == old(buf) && len == old(len) && buf[..len] == old(buf[..len])
          invariant bigger[..i] == buf[..i]
        {
          bigger[i] := buf[i];
        }
        buf := bigger;
      }
    }

    /** Bytes gained are arbitrary. */
    method Resize(l: nat)
      requires Valid()
      modifies this
      ensures Valid() && len == l
      ensures l <= old(len) ==> Contents() == old(Contents())[..l]
      ensures old(len) <= l ==> Contents()[..old(len)] == old(Contents())
      ensures if l <= old(buf.Length) then buf == old(buf) else fresh(buf) && buf.Length == l
    {
      Reserve(l);
      len := l;
    }

    /** Write a string of bytes from position p on. */
    method Write(p: nat, s: seq<Byte>)
      requires Valid() && p + |s| <= len
      modifies buf
      ensures buf == old(buf) && Contents() == old(Contents())[..p] + s + old(Contents())[p + |s|..]
    {
      for i := 0 to |s|
        invariant forall k :: 0 <= k < len ==> buf[k] == if p <= k < p + i then s[k - p] else old(buf[k])
      {
        buf[p + i] := s[i];
      }
    }
  }
}
