/** Decoding primitive fields: little-endian words, booleans, varints with their casts and range checks, and the strings and
    byte arrays that are read into the struct. Each method computes its function on the bytes left in the stream, and leaves
    the stream behind them. */
module Decoder {
  import opened Bits
  import opened Varint
  import opened Integers
  import opened Descriptor
  import opened Message
  import opened DecodeSpec
  import opened InputStream
  import opened Reader
  import opened FieldIterator
  import RequiredBitmap

  /** The destination struct. */
  class Struct {
    var slots: Slots

    constructor (slots: Slots)
      ensures this.slots == slots
    {
      this.slots := slots;
    }
  }

  // ---- fixed-width words ----

  /** The bytes of a little-endian word, shifted into place and or-ed. */
  function OrBytes(b: bytes, k: nat): nat
    requires k <= |b|
  {
    if k == 0 then 0 else BitOr(OrBytes(b, k - 1), Shl(b[k - 1], 8 * (k - 1)))
  }

  lemma {:induction false} Base256Append(b: bytes, c: byte)
    ensures Base256(b + [c]) == Base256(b) + Shl(c, 8 * |b|)
  {
    if b == [] {
      assert [c][1..] == [];
    } else {
      assert (b + [c])[1..] == b[1..] + [c];
      Base256Append(b[1..], c);
      ShlShl(c, 8 * (|b| - 1), 8);
      Shl8(Shl(c, 8 * (|b| - 1)));
    }
  }

  lemma ByteBound(result: nat, c: byte, n: nat)
    requires result < Shl(1, n)
    ensures result + Shl(c, n) < Shl(1, n + 8)
  {
    ShlSum(c, 1, n);
    ShlMonotone(c + 1, 256, n);
    Shl8(1);
    ShlShl(1, 8, n);
  }

  lemma {:induction false} OrBytesValue(b: bytes, k: nat)
    requires k <= |b|
    ensures OrBytes(b, k) == Base256(b[..k]) < Shl(1, 8 * k)
  {
    hide BitOr, Shl;
    if k == 0 {
      assert Shl(1, 0) == 1 by { ShlNone(1); }
    } else {
      OrBytesValue(b, k - 1);
      BitOrDisjoint(OrBytes(b, k - 1), b[k - 1], 8 * (k - 1));
      assert b[..k] == b[..k - 1] + [b[k - 1]];
      Base256Append(b[..k - 1], b[k - 1]);
      ByteBound(OrBytes(b, k - 1), b[k - 1], 8 * (k - 1));
    }
  }

  lemma ShlNone(v: nat)
    ensures Shl(v, 0) == v
  {
  }

  /** Reads a word of 4 or 8 bytes. */
  method DecodeFixed(s: IStream, size: nat) returns (ok: bool, value: nat)
    requires s.Valid()
    modifies s
    ensures s.Valid() && s.Limit() == old(s.Limit())
    ensures ok <==> DecFixed(size, old(s.Rest())).Ok?
    ensures ok ==> DecFixed(size, old(s.Rest())) == Ok(value, s.Rest())
  {
    hide BitOr, Shl, Base256;
    value := 0;
    var b := new byte[size];
    ok := s.Read(b, size);
    if ok {
      var k := 0;
      while k < size
        invariant 0 <= k <= size
        invariant value == OrBytes(b[..], k)
      {
        value := BitOr(value, Shl(b[k], 8 * k));
        k := k + 1;
      }
      assert b[..size] == b[..];
      OrBytesValue(b[..], size);
    }
  }

  // ---- scalars ----

  method DecBool(s: IStream, f: Field) returns (ok: bool, n: int)
    requires s.Valid() && f.ltype.Bool?
    modifies s
    ensures s.Valid() && s.Limit() == old(s.Limit())
    ensures ok <==> DecScalar(f, old(s.Rest())).Ok?
    ensures ok ==> DecScalar(f, old(s.Rest())) == Ok(n, s.Rest())
  {
    hide DecVarint32;
    var value;
    ok, value := DecodeVarint32(s);
    n := if value != 0 then 1 else 0;
  }

  method DecVarintField(s: IStream, f: Field) returns (ok: bool, n: int)
    requires s.Valid() && f.ltype.Varint?
    modifies s
    ensures s.Valid() && s.Limit() == old(s.Limit())
    ensures ok <==> DecScalar(f, old(s.Rest())).Ok?
    ensures ok ==> DecScalar(f, old(s.Rest())) == Ok(n, s.Rest())
  {
    hide DecVarint, ToSigned;
    var value;
    ok, value := DecodeVarint(s);
    n := 0;
    if !ok {
      return;
    }
    var svalue := if f.dataSize == 8 then ToSigned(8, value) else ToSigned(4, value);
    if f.dataSize == 8 {
      n := ToSigned(8, svalue);
    } else if f.dataSize == 4 {
      n := ToSigned(4, svalue);
    } else if f.dataSize == 2 {
      n := ToSigned(2, svalue);
    } else if f.dataSize == 1 {
      n := ToSigned(1, svalue);
    } else {
      return false, 0;
    }
    ok := n == svalue;
  }

  method DecUVarint(s: IStream, f: Field) returns (ok: bool, n: int)
    requires s.Valid() && f.ltype.UVarint?
    modifies s
    ensures s.Valid() && s.Limit() == old(s.Limit())
    ensures ok <==> DecScalar(f, old(s.Rest())).Ok?
    ensures ok ==> DecScalar(f, old(s.Rest())) == Ok(n, s.Rest())
  {
    hide DecVarint, ToUnsigned;
    var value;
    ok, value := DecodeVarint(s);
    n := 0;
    if !ok {
      return;
    }
    if f.dataSize == 8 {
      n := ToUnsigned(8, value);
    } else if f.dataSize == 4 {
      n := ToUnsigned(4, value);
    } else if f.dataSize == 2 {
      n := ToUnsigned(2, value);
    } else if f.dataSize == 1 {
      n := ToUnsigned(1, value);
    } else {
      return false, 0;
    }
    ok := n == value;
  }

  method DecSVarint(s: IStream, f: Field) returns (ok: bool, n: int)
    requires s.Valid() && f.ltype.SVarint?
    modifies s
    ensures s.Valid() && s.Limit() == old(s.Limit())
    ensures ok <==> DecScalar(f, old(s.Rest())).Ok?
    ensures ok ==> DecScalar(f, old(s.Rest())) == Ok(n, s.Rest())
  {
    hide DecVarint, ToSigned;
    var word;
    ok, word := DecodeVarint(s);
    n := 0;
    if !ok {
      return;
    }
    var value := if word % 2 == 1 then ToSigned(8, Not64(word / 2)) else ToSigned(8, word / 2);
    if f.dataSize == 8 {
      n := ToSigned(8, value);
    } else if f.dataSize == 4 {
      n := ToSigned(4, value);
    } else if f.dataSize == 2 {
      n := ToSigned(2, value);
    } else if f.dataSize == 1 {
      n := ToSigned(1, value);
    } else {
      return false, 0;
    }
    ok := n == value;
  }

  method DecodeScalar(s: IStream, f: Field) returns (ok: bool, n: int)
    requires s.Valid() && Packable(f.ltype)
    modifies s
    ensures s.Valid() && s.Limit() == old(s.Limit())
    ensures ok <==> DecScalar(f, old(s.Rest())).Ok?
    ensures ok ==> DecScalar(f, old(s.Rest())) == Ok(n, s.Rest())
  {
    hide DecVarint, DecVarint32, NarrowVarint, NarrowUnsigned, NarrowSigned;
    match f.ltype
    case Bool => ok, n := DecBool(s, f);
    case Varint => ok, n := DecVarintField(s, f);
    case UVarint => ok, n := DecUVarint(s, f);
    case SVarint => ok, n := DecSVarint(s, f);
    case Fixed32 => ok, n := DecodeFixed(s, 4);
    case Fixed64 => ok, n := DecodeFixed(s, 8);
  }

  // ---- byte strings ----

  method DecBytes(s: IStream, f: Field) returns (ok: bool, data: bytes)
    requires s.Valid() && f.ltype.Bytes?
    modifies s
    ensures s.Valid() && s.Limit() == old(s.Limit())
    ensures ok <==> DecBlob(f, old(s.Rest())).Ok?
    ensures ok ==> DecBlob(f, old(s.Rest())) == Ok(data, s.Rest())
  {
    hide DecVarint32;
    data := [];
    var size;
    ok, size := DecodeVarint32(s);
    if !ok {
      return;
    }
    if size > PB_SIZE_MAX || (f.atype.Static? && size + BYTES_OFFSET > f.dataSize) {
      return false, [];
    }
    var mem := new byte[size];
    ok := s.Read(mem, size);
    data := mem[..size];
  }

  method DecString(s: IStream, f: Field) returns (ok: bool, data: bytes)
    requires s.Valid() && f.ltype.String?
    modifies s
    ensures s.Valid() && s.Limit() == old(s.Limit())
    ensures ok <==> DecBlob(f, old(s.Rest())).Ok?
    ensures ok ==> DecBlob(f, old(s.Rest())) == Ok(data, s.Rest())
  {
    hide DecVarint32;
    data := [];
    var size;
    ok, size := DecodeVarint32(s);
    if !ok {
      return;
    }
    assert size < U32 by { Varint32Bound(old(s.Rest())); }
    var allocSize := (size + 1) % U32;
    if allocSize < size || (f.atype.Static? && allocSize > f.dataSize) {
      return false, [];
    }
    var mem := new byte[size + 1];
    ok := s.Read(mem, size);
    mem[size] := 0;
    data := mem[..size];
  }

  method DecFixedLengthBytes(s: IStream, f: Field) returns (ok: bool, data: bytes)
    requires s.Valid() && f.ltype.FixedLengthBytes?
    modifies s
    ensures s.Valid() && s.Limit() == old(s.Limit())
    ensures ok <==> DecBlob(f, old(s.Rest())).Ok?
    ensures ok ==> DecBlob(f, old(s.Rest())) == Ok(data, s.Rest())
  {
    hide DecVarint32;
    data := [];
    var size;
    ok, size := DecodeVarint32(s);
    if !ok {
      return;
    }
    if size > PB_SIZE_MAX {
      return false, [];
    }
    if size == 0 {
      data := Zeros(f.dataSize);
      return;
    }
    if size != f.dataSize {
      return false, [];
    }
    var mem := new byte[size];
    ok := s.Read(mem, size);
    data := mem[..size];
  }
}
