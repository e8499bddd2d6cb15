/** Reading varints, tags, lengths and fixed-width numbers from a stream. */
module Reader {
  import opened Bits
  import opened Varint
  import opened Integers
  import opened Descriptor
  import opened DecodeSpec
  import opened InputStream

  /** The 32-bit varint reader. `eof` tells that there was no byte at all. */
  method DecodeVarint32Eof(s: IStream) returns (ok: bool, value: nat, eof: bool)
    requires s.Valid()
    modifies s
    ensures s.Valid() && s.Limit() == old(s.Limit())
    ensures ok <==> DecVarint32(old(s.Rest())).Ok?
    ensures ok ==> DecVarint32(old(s.Rest())) == Ok(value, s.Rest())
    ensures eof <==> old(s.Rest()) == []
  {
    hide Absorb;
    var first, b := s.ReadByte();
    if !first {
      return false, 0, true;
    }
    if b < 128 {
      return true, b, false;
    }
    value := b % 128;
    var bitpos: nat := 7;
    while b >= 128
      invariant s.Valid() && s.Limit() == old(s.Limit())
      invariant DecVarint32(old(s.Rest())) ==
                if b >= 128 then Varint32Tail(value, bitpos, s.Rest())
                else if bitpos == 35 && b >= 16 then Fail
                else Ok(value, s.Rest())
      decreases b >= 128, s.bytesLeft
    {
      var more;
      more, b := s.ReadByte();
      if !more {
        return false, 0, false;
      }
      var absorbed := AbsorbByte(value, bitpos, b);
      if absorbed.None? {
        return false, 0, false;
      }
      value := absorbed.value;
      bitpos := (bitpos + 7) % 256;
    }
    if bitpos == 35 && b >= 16 {
      return false, 0, false;
    }
    return true, value, false;
  }

  /** One byte of the 32-bit reader. */
  method AbsorbByte(result: nat, bitpos: nat, b: byte) returns (r: Option<nat>)
    ensures r == Absorb(result, bitpos, b)
  {
    if bitpos >= 32 {
      var signExtension := if bitpos < 63 then 0xFF else 0x01;
      if b % 128 != 0 && (result / U31 == 0 || b != signExtension) {
        return None;
      }
      return Some(result);
    }
    return Some(BitOr(result, Shl(b % 128, bitpos) % U32));
  }

  method DecodeVarint32(s: IStream) returns (ok: bool, value: nat)
    requires s.Valid()
    modifies s
    ensures s.Valid() && s.Limit() == old(s.Limit())
    ensures ok <==> DecVarint32(old(s.Rest())).Ok?
    ensures ok ==> DecVarint32(old(s.Rest())) == Ok(value, s.Rest())
  {
    var eof;
    ok, value, eof := DecodeVarint32Eof(s);
  }

  /** The 64-bit varint reader. */
  method DecodeVarint(s: IStream) returns (ok: bool, value: nat)
    requires s.Valid()
    modifies s
    ensures s.Valid() && s.Limit() == old(s.Limit())
    ensures ok <==> DecVarint(old(s.Rest())).Ok?
    ensures ok ==> DecVarint(old(s.Rest())) == Ok(value, s.Rest())
  {
    hide DecVarint, BitOr, Shl;
    Varint64IsDecVarint(s.Rest());
    value := 0;
    var bitpos: nat := 0;
    var b: byte := 128;
    while b >= 128
      invariant s.Valid() && s.Limit() == old(s.Limit())
      invariant DecVarint(old(s.Rest())) == if b >= 128 then Varint64Tail(value, bitpos, s.Rest()) else Ok(value, s.Rest())
      decreases b >= 128, s.bytesLeft
    {
      if bitpos >= 64 {
        return false, 0;
      }
      var more;
      more, b := s.ReadByte();
      if !more {
        return false, 0;
      }
      value := BitOr(value, Shl(b % 128, bitpos) % U64);
      bitpos := bitpos + 7;
    }
    return true, value;
  }

  method SkipVarint(s: IStream) returns (ok: bool)
    requires s.Valid()
    modifies s
    ensures s.Valid() && s.Limit() == old(s.Limit())
    ensures ok <==> VarintLen(old(s.Rest())) > 0
    ensures ok ==> s.Rest() == old(s.Rest())[VarintLen(old(s.Rest()))..]
  {
    var b: byte := 128;
    ghost var n := 0;
    while b >= 128
      invariant s.Valid() && s.Limit() == old(s.Limit())
      invariant n <= |old(s.Rest())| && s.Rest() == old(s.Rest())[n..]
      invariant VarintLen(old(s.Rest())) == if b < 128 then n
                                            else if VarintLen(s.Rest()) == 0 then 0
                                            else n + VarintLen(s.Rest())
      invariant b < 128 ==> n > 0
      decreases b >= 128, s.bytesLeft
    {
      var more;
      more, b := s.ReadByte();
      if !more {
        return false;
      }
      n := n + 1;
    }
    return true;
  }

  method SkipString(s: IStream) returns (ok: bool)
    requires s.Valid()
    modifies s
    ensures s.Valid() && s.Limit() == old(s.Limit())
    ensures ok <==> DecPrefixed(old(s.Rest())).Ok?
    ensures ok ==> s.Rest() == DecPrefixed(old(s.Rest())).rest
  {
    hide DecVarint32;
    var size;
    ok, size := DecodeVarint32(s);
    if ok {
      ok := s.Discard(size);
    }
  }

  /** Passing over the payload of an unknown field. */
  method SkipField(s: IStream, wireType: nat) returns (ok: bool)
    requires s.Valid()
    modifies s
    ensures s.Valid() && s.Limit() == old(s.Limit())
    ensures ok <==> Skip(wireType, old(s.Rest())).Some?
    ensures ok ==> Skip(wireType, old(s.Rest())) == Some(s.Rest())
  {
    hide VarintLen, DecPrefixed;
    match wireType
    case 0 => ok := SkipVarint(s);
    case 1 => ok := s.Discard(8);
    case 2 => ok := SkipString(s);
    case 5 => ok := s.Discard(4);
    case _ => ok := false;
  }

  /** The tag word of the next record. At the end of the message the result is false and `eof` is set. */
  method DecodeTag(s: IStream) returns (ok: bool, tag: nat, wireType: nat, eof: bool)
    requires s.Valid()
    modifies s
    ensures s.Valid() && s.Limit() == old(s.Limit())
    ensures ok ==> DecTag(old(s.Rest())) == Tag(tag, wireType, s.Rest())
    ensures !ok && eof && old(s.Rest()) != [] ==> DecTag(old(s.Rest())) == Terminator(s.Rest())
    ensures !ok && !eof ==> DecTag(old(s.Rest())) == NoTag
    ensures ok ==> !eof
  {
    hide DecVarint32;
    var word;
    tag, wireType := 0, 0;
    ok, word, eof := DecodeVarint32Eof(s);
    if !ok {
      return;
    }
    if word == 0 {
      return false, 0, 0, true;
    }
    tag := word / 8;
    wireType := word % 8;
    return true, tag, wireType, false;
  }

  /** Splits off a substream of the length that the stream gives. The parent is moved behind it by Close. */
  method MakeStringSubstream(s: IStream) returns (ok: bool, sub: IStream)
    requires s.Valid()
    modifies s
    ensures s.Valid() && sub.Valid() && fresh(sub) && sub.buf == s.buf
    ensures ok <==> DecPrefixed(old(s.Rest())).Ok?
    ensures ok ==> sub.Rest() == DecPrefixed(old(s.Rest())).value && sub.bytesLeft < old(s.bytesLeft)
    ensures ok ==> s.state == sub.state && sub.Limit() + s.bytesLeft == old(s.Limit())
    ensures ok ==> s.buf[sub.Limit()..sub.Limit() + s.bytesLeft] == DecPrefixed(old(s.Rest())).rest
    ensures !ok ==> s.Limit() == old(s.Limit())
  {
    hide DecVarint32;
    var size;
    ok, size := DecodeVarint32(s);
    sub := new IStream.Copy(s);
    if !ok {
      return;
    }
    if sub.bytesLeft < size {
      return false, sub;
    }
    sub.bytesLeft := size;
    s.bytesLeft := s.bytesLeft - size;
    return true, sub;
  }

  /** Skips what is left of the substream and moves the parent behind it. */
  method CloseStringSubstream(s: IStream, sub: IStream)
    requires s.Valid() && sub.Valid() && s != sub && s.buf == sub.buf
    requires sub.Limit() + s.bytesLeft <= s.buf.Length
    modifies s, sub
    ensures s.Valid() && s.bytesLeft == old(s.bytesLeft) && s.state == old(sub.Limit())
    ensures s.Rest() == old(s.buf[sub.Limit()..sub.Limit() + s.bytesLeft])
  {
    if sub.bytesLeft != 0 {
      var ok := sub.Discard(sub.bytesLeft);
    }
    s.state := sub.state;
  }
}
