/** A sender and a receiver: what the encoder puts into a buffer, the decoder takes out again. */
module Exchange {
  import opened Bits
  import opened Varint
  import opened Integers
  import opened Descriptor
  import opened Message
  import opened EncodeSpec
  import opened DecodeSpec
  import opened Merge
  import opened RoundTrip
  import opened Observe
  import opened Allocation
  import opened OutputStream
  import opened InputStream
  import opened SourceStruct
  import opened Encoder
  import Addresses
  import MessageEncoder
  import Decoder
  import MessageDecoder
  import Framing

  /** What the functions say about the two calls. */
  lemma Exchangeable(S: Schema, t: nat, m: Slots)
    requires SchemaOk(S) && t < |S| && Sendable(S, t, m) && Exclusive(S, t, m)
    ensures |m| == |S[t]| && EncMessage(S, t, m).Success? && OfMessage(S, t, m) == |EncMessage(S, t, m).value|
    ensures DecFresh(S, t, EncMessage(S, t, m).value) == Ok(Received(S, t, m), [])
    ensures ZeroDefaults(S) ==> View(S, t, Received(S, t, m)) == View(S, t, m)
    ensures Addresses.AllFind(S, t, Start(Defaults(S, t)), Addresses.NoDirt, EncMessage(S, t, m).value)
  {
    hide SchemaOk, ZeroDefaults, Sendable, Exclusive, OfMessage, View, Received, EncMessage, DecFresh, Addresses.AllFind;
    MessageReceived(S, t, m);
    if ZeroDefaults(S) {
      ReceivedView(S, t, m);
    }
    SendableLength(S, t, m);
    Addresses.EncodingFinds(S, t, m, []);
    assert EncMessage(S, t, m).value + [] == EncMessage(S, t, m).value;
    ProducedSize(S, t, m);
  }

  /** Encodes a struct into a buffer of the announced size. */
  method Send(S: Schema, t: nat, m: Slots) returns (size: nat, buf: array<byte>)
    requires SchemaOk(S) && t < |S| && Filled(S, t, m) && EncMessage(S, t, m).Success?
    requires OfMessage(S, t, m) == |EncMessage(S, t, m).value| <= SIZE_MAX
    ensures fresh(buf) && buf.Length == size && buf[..] == EncMessage(S, t, m).value
  {
    hide SchemaOk, Filled, OfMessage, EncMessage, Kept;
    var ok;
    ok, size := MessageEncoder.GetEncodedSize(S, t, m);
    buf := new byte[size];
    var out := new OStream.FromBuffer(buf, size);
    ok := MessageEncoder.Encode(out, S, t, m);
    assert buf[..size] == EncMessage(S, t, m).value;
    assert buf[..] == buf[..size];
  }

  /** Encodes a struct into a buffer of the announced size and decodes it into a new struct: both succeed, the buffer
      is used up exactly, and when defaults are zero a program cannot tell the received struct from the one sent. */
  method Exchange(S: Schema, t: nat, m: Slots) returns (size: nat, received: Slots)
    requires SchemaOk(S) && t < |S|
    requires Sendable(S, t, m) && Exclusive(S, t, m) && Filled(S, t, m) && OfMessage(S, t, m) <= SIZE_MAX
    ensures |m| == |S[t]| && |received| == |S[t]|
    ensures size == OfMessage(S, t, m)
    ensures received == Received(S, t, m) && (ZeroDefaults(S) ==> View(S, t, received) == View(S, t, m))
  {
    Exchangeable(S, t, m);
    hide SchemaOk, ZeroDefaults, Sendable, Exclusive, Filled, OfMessage, View, Received, EncMessage, DecFresh;
    hide Addresses.AllFind, Defaults;
    var buf;
    size, buf := Send(S, t, m);
    var input := new IStream.FromBuffer(buf, size);
    assert input.Rest() == buf[..];
    var dest := new Decoder.Struct(seq(|S[t]|, _ => One(false, Indeterminate)));
    var ok := MessageDecoder.Decode(input, S, t, dest);
    received := dest.slots;
  }
}
