/** The output stream: it writes into a memory buffer, or only counts. */
module OutputStream {
  import opened Bits
  import opened Integers
  import opened EncodeSpec
  import opened Allocation

  /** The state of a stream together with the memory it writes to. */
  datatype OState = OState(sizing: bool, maxSize: nat, bytesWritten: nat, state: nat, image: bytes)

  /** A writing stream may still fill its memory up to its limit. */
  predicate Proper(a: OState) {
    a.bytesWritten <= SIZE_MAX && a.maxSize <= SIZE_MAX &&
    (!a.sizing ==> a.bytesWritten <= a.maxSize && Limit(a) <= |a.image|)
  }

  function Limit(a: OState): int {
    a.state + (a.maxSize - a.bytesWritten)
  }

  /** The stream went from a to b while `enc` was to be written. It succeeds exactly when there are such bytes and they
      fit; then they stand behind what was written before. In any case nothing in front of the old position and nothing
      from the limit on is touched. */
  predicate Step(a: OState, b: OState, ok: bool, enc: Result<bytes>) {
    && Proper(a) && Proper(b)
    && b.sizing == a.sizing && b.maxSize == a.maxSize
    && (ok <==> enc.Success? && (a.sizing || a.bytesWritten + |enc.value| <= a.maxSize))
    && (ok ==> b.bytesWritten == a.bytesWritten + |enc.value|)
    && (!a.sizing ==> Kept(a, b))
    && (ok && !a.sizing ==> b.state == a.state + |enc.value| && b.image[a.state..b.state] == enc.value)
  }

  predicate Kept(a: OState, b: OState)
    requires Proper(a) && Proper(b) && !a.sizing && !b.sizing
  {
    && a.state <= b.state && Limit(b) == Limit(a) && |b.image| == |a.image|
    && b.image[..a.state] == a.image[..a.state]
    && b.image[Limit(a)..] == a.image[Limit(a)..]
  }

  lemma StepThen(a: OState, b: OState, c: OState, ok: bool, e1: Result<bytes>, e2: Result<bytes>)
    requires Step(a, b, true, e1) && Step(b, c, ok, e2)
    ensures Step(a, c, ok, Cat(e1, e2))
  {
    if !a.sizing {
      KeptThen(a, b, c);
      if ok {
        var m := c.image[..b.state];
        assert c.image[a.state..b.state] == m[a.state..];
        assert b.image[a.state..b.state] == b.image[..b.state][a.state..];
        assert c.image[a.state..c.state] == c.image[a.state..b.state] + c.image[b.state..c.state];
      }
    }
  }

  lemma KeptThen(a: OState, b: OState, c: OState)
    requires Proper(a) && Proper(b) && Proper(c) && !a.sizing && !b.sizing && !c.sizing
    requires Kept(a, b) && Kept(b, c)
    ensures Kept(a, c)
  {
    assert c.image[..a.state] == c.image[..b.state][..a.state];
    assert b.image[..a.state] == b.image[..b.state][..a.state];
  }

  lemma StepFails(a: OState, b: OState, e1: Result<bytes>, e2: Result<bytes>)
    requires Step(a, b, false, e1)
    ensures Step(a, b, false, Cat(e1, e2))
  {
  }

  lemma StepNothing(a: OState)
    requires Proper(a)
    ensures Step(a, a, true, Success([]))
    ensures Step(a, a, false, Failure)
  {
  }

  class OStream {
    const sizing: bool
    const buf: array<byte>
    var state: nat
    var maxSize: nat
    var bytesWritten: nat

    ghost function Now(): OState
      reads this, buf
    {
      OState(sizing, maxSize, bytesWritten, state, buf[..])
    }

    constructor FromBuffer(buf: array<byte>, size: nat)
      requires size <= buf.Length && size <= SIZE_MAX
      ensures this.buf == buf && Now() == OState(false, size, 0, 0, buf[..]) && Proper(Now())
    {
      this.buf := buf;
      sizing := false;
      state := 0;
      maxSize := size;
      bytesWritten := 0;
    }

    /** A stream that only counts. */
    constructor Sizing()
      ensures fresh(buf) && sizing && bytesWritten == 0 && Proper(Now())
    {
      buf := new byte[0];
      sizing := true;
      state := 0;
      maxSize := 0;
      bytesWritten := 0;
    }

    /** A writing stream for the next `size` bytes of another. */
    constructor Window(parent: OStream, size: nat)
      requires Proper(parent.Now()) && !parent.sizing && parent.bytesWritten + size <= parent.maxSize
      ensures buf == parent.buf && Now() == OState(false, size, 0, parent.state, buf[..]) && Proper(Now())
    {
      buf := parent.buf;
      sizing := false;
      state := parent.state;
      maxSize := size;
      bytesWritten := 0;
    }

    /** Copies into the memory. */
    method BufWrite(data: bytes)
      requires state + |data| <= buf.Length
      modifies this, buf
      ensures state == old(state) + |data| && maxSize == old(maxSize) && bytesWritten == old(bytesWritten)
      ensures buf[..] == old(buf[..state]) + data + old(buf[state + |data|..])
    {
      var dest := state;
      state := dest + |data|;
      var i := 0;
      while i < |data|
        invariant 0 <= i <= |data|
        invariant buf[..] == old(buf[..state]) + data[..i] + old(buf[state + i..])
        modifies buf
      {
        buf[dest + i] := data[i];
        i := i + 1;
      }
    }

    /** Writes bytes. The counter is a 64-bit number; a writing stream refuses what would overflow it, a counting one
        wraps around. */
    method Write(data: bytes) returns (ok: bool)
      requires Proper(Now()) && |data| <= SIZE_MAX
      modifies this, buf
      ensures !sizing || old(bytesWritten) + |data| <= SIZE_MAX ==> Step(old(Now()), Now(), ok, Success(data))
      ensures sizing ==> ok && bytesWritten == (old(bytesWritten) + |data|) % U64
    {
      if |data| > 0 && !sizing {
        var total := (bytesWritten + |data|) % U64;
        if total < bytesWritten || total > maxSize {
          return false;
        }
        BufWrite(data);
        Placed(old(Now()), Now(), data);
      }
      bytesWritten := (bytesWritten + |data|) % U64;
      ok := true;
    }

    /** Adds to the count of a counting stream. */
    method Count(size: nat) returns (ok: bool)
      requires sizing && size <= SIZE_MAX && Proper(Now())
      modifies this
      ensures ok && bytesWritten == (old(bytesWritten) + size) % U64 && maxSize == old(maxSize) && state == old(state)
    {
      bytesWritten := (bytesWritten + size) % U64;
      ok := true;
    }
  }

  lemma Placed(a: OState, b: OState, data: bytes)
    requires a.state + |data| <= |a.image| && b == a.(state := a.state + |data|, image := a.image[..a.state] + data + a.image[a.state + |data|..])
    ensures b.image[..a.state] == a.image[..a.state] && b.image[a.state..b.state] == data
    ensures forall k :: b.state <= k <= |a.image| ==> b.image[k..] == a.image[k..]
  {
  }
}
