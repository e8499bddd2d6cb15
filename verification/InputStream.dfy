/** The input stream over a memory buffer, and the readers that work on it directly. */
module InputStream {
  import opened Bits
  import opened Varint
  import opened Integers
  import opened DecodeSpec

  class IStream {
    const buf: array<byte>
    var state: nat
    var bytesLeft: nat

    ghost predicate Valid()
      reads this
    {
      state + bytesLeft <= buf.Length
    }

    /** The position at which the stream ends. */
    ghost function Limit(): nat
      reads this
    {
      state + bytesLeft
    }

    /** The bytes still to be read. */
    ghost function Rest(): bytes
      requires Valid()
      reads this, buf
    {
      buf[state..state + bytesLeft]
    }

    constructor FromBuffer(buf: array<byte>, size: nat)
      requires size <= buf.Length
      ensures Valid() && this.buf == buf && state == 0 && bytesLeft == size
    {
      this.buf := buf;
      state := 0;
      bytesLeft := size;
    }

    /** A copy of the stream, which can be limited further. */
    constructor Copy(other: IStream)
      requires other.Valid()
      ensures Valid() && buf == other.buf && state == other.state && bytesLeft == other.bytesLeft
    {
      buf := other.buf;
      state := other.state;
      bytesLeft := other.bytesLeft;
    }

    method ReadByte() returns (ok: bool, b: byte)
      requires Valid()
      modifies this
      ensures Valid() && Limit() == old(Limit())
      ensures ok <==> old(Rest()) != []
      ensures ok ==> old(Rest()) == [b] + Rest()
      ensures !ok ==> bytesLeft == 0 && state == old(state)
    {
      b := 0;
      if bytesLeft == 0 {
        return false, b;
      }
      b := buf[state];
      state := state + 1;
      bytesLeft := bytesLeft - 1;
      return true, b;
    }

    /** Reads into the front of another array. */
    method Read(dest: array<byte>, count: nat) returns (ok: bool)
      requires Valid() && dest != buf && count <= dest.Length
      modifies this, dest
      ensures Valid() && Limit() == old(Limit())
      ensures ok <==> count <= old(bytesLeft)
      ensures ok ==> dest[..count] == old(Rest())[..count] && Rest() == old(Rest())[count..]
      ensures !ok ==> state == old(state)
    {
      if bytesLeft < count {
        return false;
      }
      var source := state;
      state := state + count;
      var i := 0;
      while i < count
        invariant 0 <= i <= count
        invariant dest[..i] == buf[source..source + i]
        modifies dest
      {
        dest[i] := buf[source + i];
        i := i + 1;
      }
      bytesLeft := bytesLeft - count;
      return true;
    }

    /** Reads without storing. */
    method Discard(count: nat) returns (ok: bool)
      requires Valid()
      modifies this
      ensures Valid() && Limit() == old(Limit())
      ensures ok <==> count <= old(bytesLeft)
      ensures ok ==> Rest() == old(Rest())[count..]
      ensures !ok ==> state == old(state)
    {
      if bytesLeft < count {
        return false;
      }
      state := state + count;
      bytesLeft := bytesLeft - count;
      return true;
    }
  }
}
