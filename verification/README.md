# A model of the nanopb codec

nanopb is a Protocol Buffers codec for C that works from descriptor tables: a table lists the fields of a message
struct, the encoder walks the table and writes records, the decoder looks up each record's tag and stores the value in
place. This project models version 0.3.9.6 as vendored under `SwiftProjects/Foundation-master/Pods/nanopb`: the varint and
fixed-width primitives, the encoder with its sizing passes, the decoder with its substreams, fixed-count arrays and
required-field bitmap, the table iterator, and dynamic allocation with its release.

## How it is built

The bytes of a message are a function of its struct (`EncodeSpec`), and what decoding makes of any byte string is a
function of the bytes and the struct decoded into (`DecodeSpec`). The theorems are about these two functions. The code
itself, which updates streams, buffers, the iterator and the struct step by step, is modelled by classes and methods,
each proved to compute exactly its function.

- `Bits`, `Varint`, `Integers`: bytes, shifts and or; varints of both readers; zigzag, casts and little-endian words.
- `Descriptor`, `Message`: tables, values and structs; lookup, initialisation, well-formedness, unions.
- `EncodeSpec`, `DecodeSpec`: encoding and decoding as functions.
- `Merge`, `Transfer`, `RoundTrip`, `Observe`: decoding an encoding is merging; the round trip; what a program observes;
  fields left out because they are zero.
- `Wire`, `WireRecords`, `WireReading`, `Presence`, `Evolution`: the wire format without tables; encodings as lists of its
  records, and what a receiver makes of records of other encoders; which fields are left out; senders and receivers with
  different versions of a type.
- `Concat`, `LastWins`, `Records`, `Packing`, `Framing`, `Layout`: concatenation, unknown records, required fields,
  runs of fixed-count arrays, packed and single elements, sequences of messages, the layout kept by decoding.
- `Reencode`, `Canonical`, `Stale`: decoded structs can be sent on; equal views have equal encodings; memory without a
  value does not influence decoding.
- `FieldIterator`: the iterator and the struct offsets.
- `InputStream`, `Reader`, `RequiredBitmap`, `Allocation`, `Decoder`, `MessageDecoder`: the decoder.
- `OutputStream`, `Writer`, `SourceStruct`, `Encoder`, `MessageEncoder`: the encoder.
- `Exchange`: encoder and decoder together.
- `Ownership`, `Reuse`, `Release`, `Initial`, `Backing`, `PointerDecoder`, `Lifecycle`: the heap and who owns which block;
  which structs are initialised while in use; release; what initialisation does to the pointers in memory; decoding with
  allocation; a struct from its first to its last use.
- `Damage`, `Overwritten`, `TornPointers`, `LostExample`: the inputs that lose blocks or tear pointers.
- `Samples`, `Exactness`: sample messages made from a schema; the conditions on schemas are exact.
- `WordBytes`, `StructImage`, `Unions`, `Addresses`: the bytes that a union holds when they are taken for a pointer; that they
  are the image of the decoded values; one union; all unions at every depth.

A struct is a sequence of slots, one for each field. A slot is a single item with its presence, or the items of an
array. `Indeterminate` stands for memory that has no defined value. A schema numbers the tables; a submessage stored
in place has a smaller number than its parent, since its struct type must be complete, while pointers may refer to any
table, also to their own. Numbers are unbounded, and every cast, wrap-around and width check of the code is written out.

The configuration is that of the Pods project (`PB_FIELD_32BIT`, `PB_ENABLE_MALLOC`, `PB_NO_PACKED_STRUCTS`), with a
64-bit `size_t` and an 8-bit `uint_fast8_t`.

`EncodeSpec` and `DecodeSpec` follow the code. What they mean is said apart from it: by the records of the wire format
(`WireRecords.MessageWritten`, `Wire.SkipExact`, the lemmas of `WireReading`), by what is set in a struct (`Presence`) and by
the layout of structs (`FieldIterator.WalkIsLayout`, `StructImage`).

The contract of everything that writes is one relation on streams, `OutputStream.Step`: the call succeeds exactly when
there are bytes to write and they fit, then they stand behind what was written before and are counted, and in any case
no memory before the position or from the limit on is touched. Methods that read have the corresponding contract on the
bytes left, and leave the sum of position and bytes left alone.

The decoder of `PointerDecoder` decodes the records on the wire into a value and, next to it, follows the pointers of the
struct's memory and the heap. The memory is that of the code: elements behind a count stay where they are, a count is raised
before its element is decoded, and where initialisation clears a part of a pointer the word is torn. Reallocation takes no
torn word; a release that comes by one gives it back and sets `Heap.wild`, and from then on the account says nothing about
the program. Only whether memory is available is left open, so the results hold for every input and every failing
allocation; when memory does not run out, the verdict is that of the decoder on values.

A table is taken as the descriptor macros make it (`Message.FieldOk`, `Message.TableOk`), with one condition that the macros
do not ensure and that a caller can read off the table, because the code goes wrong without it: an array without count
has at least four bytes. The methods of the decoder ask that the pointer members of unions find addresses
(`Addresses.AllFind`), which every input does when the members of one union are all in place or all behind pointers
(`Message.UniformUnions`), and every encoding does in an initialised struct. Both are stated exactly below.

## What the proofs showed

Places where the code does not do what one would expect; the model follows the code.

- A pointer can be torn and then given back. The decoder keeps the count of one array without count (fixed-count array)
  at a time, and only while one struct is decoded. When another such array comes in between, or when the struct is a
  submessage in place that occurs twice, the array is filled again, and its elements are initialised while in use.
  Initialisation stores a count of four bytes at the start of each array inside them, also when there is no count. When
  a pointer stands there, half of its address is cleared, and `pb_release` passes what is left to `free`. `Reuse.Clean`
  is the exact condition on a schema (`Exactness.ConditionsExact`; `TornPointers.CleanExact` says it in terms of the
  arrays): on clean schemas no release meets such a word (`Lifecycle.Lifetime`); otherwise there is an input that tears
  the pointer, for every message that has one in that place (`TornPointers.TwoArraysTear`,
  `TornPointers.InPlaceTwiceTears`), such as the sample (`Exactness.NotCleanTears`), and following it gives the torn
  pointer back (`Lifecycle.Lifetime` again). `LostExample.TearingRun` does it with fourteen bytes that are accepted, for
  types [NAME {string pointer}], [MID {NAME names[1]}], [MID mids[1], fixed32 codes[1]], all arrays without count: 0A 05
  0A 03 0A 01 78, 15 01 00 00 00, 0A 00.
- Blocks can be lost, in the same situations. Elements of an array that is filled again are initialised without being
  released. `Reuse.Tight` is the exact condition on a schema: an array of submessages without count, whose elements can
  hold pointers, is the only array without count in its table, and the table is not the type of a submessage in place.
  On tight schemas nothing is lost and the release frees everything (`Lifecycle.Lifetime`); otherwise there is a losing
  input for every message whose elements hold a pointer (`Overwritten.TwoArraysLose`, `Overwritten.InPlaceTwiceLoses`),
  such as the sample (`Exactness.NotTightLoses`, `Exactness.ConditionsExact`), and following it, accepted or not, loses
  a block that the release does not free (`Lifecycle.Lifetime` again). `LostExample.LosingRun` has such an input: 0A 03
  0A 01 x, 15 01 00 00 00, 0A 03 0A 01 y. This is at odds with `pb_decode.h:101-103`, by which releasing a decoded
  message is enough. Elements behind a count that initialisation set to zero are another such place; when a count is
  raised for an element that is then refused, the release comes by the older element and frees it, so that a rejected
  input can lose less than its records suggest (`Damage.Was`).
- A union of a member in place and a pointer member can be decoded wrongly. Before a pointer member the other member is
  released: a pointer becomes NULL, and of a member in place the pointers inside it and the counts of its pointer arrays
  become zero. All other bytes of a member in place stay, and `allocate_field` takes them for the address of a block to
  be enlarged. With a number (tag 1) and a string pointer (tag 2) in one union, 08 05 12 01 61 reallocates the block at
  address 5 (`Unions.FiveBytes`); with a message of one string pointer in place of the number nothing can go wrong
  (`Unions.TitledFinds`). `Unions.UnionExact` says for every table when this cannot happen. The round trip of one
  message into a fresh struct does not depend on it (`Observe.MessageRoundTrip`, `Exchange.Exchange`); other input, and
  structs in use, do (`Addresses.AllFind`, `Message.UniformUnions`).
- Initialisation clears four bytes at the start of an array without count, through the count that is not there. In an array
  of fewer bytes this reaches what comes behind it: with Sub {1: bool[1] fixed count} and Msg {1: Sub subs[1], counted,
  2: required bool flag}, the input 10 01 0A 02 08 01 is accepted, and when `flag` lies within three bytes behind the
  element, initialising the element sets it back to false. `FieldIterator.CountInsideExact` has the bound, and
  `Message.FieldOk` asks for it.
- The 32-bit varint reader takes some values that are not sign-extended 32-bit values and drops their upper half
  (`Varint.Varint32AcceptsTooMuch`; `Varint.Varint32Accepts` says exactly which).
- Lengths, tags and booleans may be written with any number of bytes, because only the 64-bit reader limits it
  (`Varint.OverlongAccepted`); the position counter of the other one wraps at 256.
- A plain signed 32-bit field accepts every varint and keeps the low 32 bits (`Descriptor.NarrowAccepts`).
- A zero that is left out becomes visible when the default of the field is not zero (`Observe.OmissionExact`).
- In a table without fields, a record with tag 0 matches the terminator entry, and a boolean is read outside the struct
  (`DecodeSpec.DecRecord`, `FieldIterator.FieldIter.Find`).

## Model

| member | source | states |
|---|---|---|
| Observe.MessageRoundTrip | SwiftProjects/Foundation-master/Pods/nanopb/pb_encode.c:528-550 | For every well-formed schema (also recursive ones, and with mixed unions) with zero defaults of singular fields and every sendable struct: encoding succeeds, decoding its bytes into a fresh struct succeeds and uses every byte, and the received struct looks the same as the one sent: absent optional fields have defaults, arrays keep order and count, a union keeps its member. |
| Observe.MessageReceived | SwiftProjects/Foundation-master/Pods/nanopb/pb_decode.c:1075-1087 | For every well-formed schema, also with mixed unions, and every sendable struct, with any defaults: encoding succeeds and decoding its bytes gives exactly the present fields, the defaults for the others, and uses every byte. |
| Canonical.MessageSame | SwiftProjects/Foundation-master/Pods/nanopb/pb_encode.c:528-550 | The encoding depends only on what a program can observe: structs with the same view have the same encoding, or neither has one. |
| Canonical.SameBytes | SwiftProjects/Foundation-master/Pods/nanopb/pb_encode.c:528-550 | With zero defaults of singular fields, encoding the struct received gives again the bytes it was received from. |
| Exchange.Exchange | SwiftProjects/Foundation-master/Pods/nanopb/pb_encode.c:567-576 | The same for the imperative encoder and decoder together, also with mixed unions: size, buffer of exactly that size, encode, decode; every call succeeds and, when defaults are zero, the received struct cannot be told from the one sent. |
| Addresses.EncodingFinds | SwiftProjects/Foundation-master/Pods/nanopb/pb_decode.c:1128-1152 | Whatever the unions of the schema are, an encoding of a struct with at most one member in each union makes every pointer member that the decoder comes to find an address or NULL, at every depth, in an initialised struct. |
| Addresses.UniformAllFind | SwiftProjects/Foundation-master/Pods/nanopb/pb_decode.c:1128-1152 | With uniform unions every input does, at every depth, in any struct in whose unions of pointers nothing else is left. |
| Addresses.EachUnionFinds | SwiftProjects/Foundation-master/Pods/nanopb/pb_decode.c:1128-1152 | When all pointer members at every depth find addresses, each union of the struct by itself does. |
| Transfer.MessageDecodes | SwiftProjects/Foundation-master/Pods/nanopb/pb_decode.c:925-1073 | With uniform unions, decoding an encoding into any struct of the right layout, fresh or in use, succeeds exactly when the merge of the message into that struct exists (no static array overflows) and then gives the merge with nothing left over. |
| RoundTrip.MergeFresh | SwiftProjects/Foundation-master/Pods/nanopb/pb_decode.c:836-919 | Merging a message into the default struct gives the struct received: present fields, defaults for the others, unions with at most one member. |
| LastWins.ConcatenatedEncodings | SwiftProjects/Foundation-master/Pods/nanopb/pb_decode.c:925-1073 | With uniform unions, decoding two encodings one behind the other is the first message merged with the second (later scalars win, embedded submessages merge, arrays append), or fails exactly when an array overflows. |
| Concat.LastOneWins | SwiftProjects/Foundation-master/Pods/nanopb/pb_decode.h:74-75 | For arbitrary bytes s1, s2, every well-formed schema with uniform unions and a table without fixed-count arrays: once s1 is decoded as whole records, decoding s1 + s2 is continuing with s2 on the result, and equals decoding s2 into the result when that succeeds. |
| Concat.LoopConcat | SwiftProjects/Foundation-master/Pods/nanopb/pb_decode.c:943-1021 | The record loop is a homomorphism: on s1 + s2 it continues on s2 in the state that s1 left, for every table. |
| Concat.DecRecordFrame | SwiftProjects/Foundation-master/Pods/nanopb/pb_decode.c:731-757 | A record is decoded the same whatever bytes follow it, and exactly those bytes are left. |
| Concat.UnknownFieldTransparent | SwiftProjects/Foundation-master/Pods/nanopb/pb_decode.c:957-986 | An unknown record between records, a tag word and a payload of its wire type (a varint of any length, eight bytes, a length and that many bytes, or four bytes), changes neither struct, nor the required and fixed-count verdicts, nor where decoding stops. |
| WireRecords.MessageWritten | SwiftProjects/Foundation-master/Pods/nanopb/pb_encode.c:528-550 | For every well-formed schema and every struct with numbers in the range of their fields: encoding succeeds exactly when the required pointers are set, the arrays without count are complete and no count or size exceeds its array; then the bytes are those of a list of wire format records, given field by field: the tag with the number of the wire type, and a varint, a word, or a length and bytes, submessages as records again. |
| WireRecords.ScalarWritten | SwiftProjects/Foundation-master/Pods/nanopb/pb_encode.c:769-850 | What a number is on the wire, with its wire type: a signed number the varint of its 64-bit two's complement whatever the width of its field, zigzag 2n or -2n - 1, a word of four or eight bytes. |
| WireRecords.DefaultsEncode | SwiftProjects/Foundation-master/Pods/nanopb/pb_decode.c:836-919 | The struct as initialised can be encoded exactly when nothing required is behind a pointer, no array without count has to be filled and the default values fit, recursively. |
| Presence.ZeroItemExact | SwiftProjects/Foundation-master/Pods/nanopb/pb_encode.c:240-337 | The zero test takes exactly the zero values for zero, and exactly the submessages in which nothing is set. |
| Presence.ZeroExact | SwiftProjects/Foundation-master/Pods/nanopb/pb_encode.c:289-308 | Every field of a struct passes the zero test if and only if nothing in it is set: no required field, element, flag, pointer or union member, and only zeros without a flag, recursively. |
| Presence.FieldSilent | SwiftProjects/Foundation-master/Pods/nanopb/pb_encode.c:341-426 | A field writes nothing if and only if it is not set, or zero where there is no flag. |
| Presence.MessageSilent | SwiftProjects/Foundation-master/Pods/nanopb/pb_encode.c:528-550 | A struct is encoded to no bytes if and only if nothing in it is set. |
| Presence.DefaultsSilent | SwiftProjects/Foundation-master/Pods/nanopb/pb_decode.c:836-919 | The struct as initialised is encoded to no bytes if and only if its type has no required field and no array without count and what has no flag is zero by default, which a byte string of fixed length is only when its length is zero. |
| WireReading.RecordEnds | SwiftProjects/Foundation-master/Pods/nanopb/pb_decode.c:298-331 | Any receiver reads tag and wire type of a record and passes over exactly its payload. |
| WireReading.RecordsUnique | SwiftProjects/Foundation-master/Pods/nanopb/pb_encode.c:669-707 | Two lists of wire format records have the same bytes only if they are the same. |
| WireReading.ForeignMessage | SwiftProjects/Foundation-master/Pods/nanopb/pb_decode.c:957-986 | A receiver whose table has none of the tags passes over a whole encoding: struct and verdicts stay, and every byte is used. |
| Evolution.OlderReceiver | SwiftProjects/Foundation-master/Pods/nanopb/pb_decode.c:957-986 | An older receiver, whose table has only some of the fields, perhaps at other places of its struct, makes of an encoding exactly what it would make of the encoding of those fields, in any struct. |
| Evolution.OlderReceives | SwiftProjects/Foundation-master/Pods/nanopb/pb_decode.c:957-986 | In a fresh struct it gets exactly the fields that it knows, and uses every byte. |
| Evolution.OlderSender | SwiftProjects/Foundation-master/Pods/nanopb/pb_encode.c:528-550 | A newer struct in which the new fields are not set has the encoding of the older one, so that a newer receiver takes the message of an older sender for one without them. |
| Records.RequiredExact | SwiftProjects/Foundation-master/Pods/nanopb/pb_decode.c:1030-1070 | When all records decode, decoding succeeds exactly when the last fixed-count array is full and each of the first 64 required fields occurred on the wire. |
| Records.SeenOccurs | SwiftProjects/Foundation-master/Pods/nanopb/pb_decode.c:1012-1017 | The set of fields noted by the decoder is exactly the set of required fields that occurred among the records. |
| Records.FixedCountRuns | SwiftProjects/Foundation-master/Pods/nanopb/pb_decode.c:988-1010 | In every successful decoding each maximal run of records of a fixed-count array carries exactly as many items as the array has elements, although no counter is stored in the struct. |
| Packing.MixedRecords | SwiftProjects/Foundation-master/Pods/nanopb/pb_decode.c:424-464 | However the elements of a repeated scalar are split over packed arrays and single records, decoding stores their values in order from the count on (for fixed-count arrays from the counter on), inside the array, and fails exactly when they exceed the capacity. |
| Packing.PackedElements | SwiftProjects/Foundation-master/Pods/nanopb/pb_decode.c:424-451 | A packed payload made of well-formed elements decodes to their values in order exactly when they fit. |
| Observe.OmissionInvisible | SwiftProjects/Foundation-master/Pods/nanopb/pb_encode.c:240-337 | Whenever the zero test lets the encoder drop a singular static field (also a submessage, recursively), the default value at the receiver looks the same as the value dropped. |
| Observe.OmissionExact | SwiftProjects/Foundation-master/Pods/nanopb/pb_encode.c:355-359 | For a field that is no submessage, dropping a zero value is invisible if and only if the default in the descriptor is zero as well. |
| Observe.ZeroView | SwiftProjects/Foundation-master/Pods/nanopb/pb_encode.c:289-308 | A struct all of whose fields pass the zero test looks like the default struct. |
| Varint.VarintRoundTrip | SwiftProjects/Foundation-master/Pods/nanopb/pb_decode.c:255-275 | For every 64-bit v the reader returns v from its encoding and consumes exactly that, whatever follows. |
| Varint.VarintPrefixFree | SwiftProjects/Foundation-master/Pods/nanopb/pb_encode.c:608-628 | No encoding of a 64-bit value is a proper prefix of another. |
| Varint.EncVarintLength | SwiftProjects/Foundation-master/Pods/nanopb/pb_encode.c:608-628 | The encoding of v has max(1, ceil(bits(v) / 7)) bytes. |
| Varint.EncVarintFits | SwiftProjects/Foundation-master/Pods/nanopb/pb_encode.c:610-610 | The encoding of a 64-bit value fits the ten-byte buffer. |
| Varint.VarintGroup | SwiftProjects/Foundation-master/Pods/nanopb/pb_encode.c:608-628 | Byte k of an encoding has the seven bits from bit 7k on, and the continuation bit unless it is the last. |
| Varint.Varint64IsDecVarint | SwiftProjects/Foundation-master/Pods/nanopb/pb_decode.c:255-275 | The loop of shifts and ors accepts exactly the varints of at most ten bytes and computes their base-128 value modulo 2^64. |
| Varint.ReadersAgree | SwiftProjects/Foundation-master/Pods/nanopb/pb_decode.c:187-247 | Whatever varint of at most ten bytes the 32-bit reader accepts, it consumes the same bytes as the 64-bit reader and returns the low 32 bits of its value. |
| Varint.Varint32RoundTrip | SwiftProjects/Foundation-master/Pods/nanopb/pb_decode.c:187-247 | The 32-bit reader returns every value below 2^32 from its encoding, whatever follows. |
| Varint.Varint32Accepts | SwiftProjects/Foundation-master/Pods/nanopb/pb_decode.c:205-236 | Exactly which encodings of 64-bit values the 32-bit reader accepts: values below 2^32, and those with bits 31 and 63 set whose groups between are each all zeros or all ones. |
| Varint.Varint32Negative | SwiftProjects/Foundation-master/Pods/nanopb/pb_decode.c:221-230 | Sign-extended negative 32-bit values are accepted and give their two's complement. |
| Varint.Varint32AcceptsTooMuch | SwiftProjects/Foundation-master/Pods/nanopb/pb_decode.c:221-230 | A value that is no sign-extended 32-bit value, 2^63 + 2^31, is accepted and cut to 2^31. |
| Varint.OverlongAccepted | SwiftProjects/Foundation-master/Pods/nanopb/pb_decode.c:187-247 | Zero written with any number of empty groups is accepted by the 32-bit reader, and by the 64-bit reader exactly up to ten bytes. |
| Varint.Varint32Bound | SwiftProjects/Foundation-master/Pods/nanopb/pb_decode.c:187-247 | The result of the 32-bit reader is below 2^32 on every input. |
| Integers.ZigZagBijection | SwiftProjects/Foundation-master/Pods/nanopb/pb_encode.c:630-639 | Zigzag and its inverse are mutually inverse between the signed and the unsigned 64-bit numbers. |
| Integers.ZigZagOrder | SwiftProjects/Foundation-master/Pods/nanopb/pb_encode.c:630-639 | The shift-and-complement form of zigzag is 2n for n >= 0 and -2n - 1 for n < 0. |
| Integers.FixedRoundTrip | SwiftProjects/Foundation-master/Pods/nanopb/pb_decode.c:1283-1315 | A little-endian word of 4 or 8 bytes comes back, whatever follows. |
| Descriptor.ScalarRoundTrip | SwiftProjects/Foundation-master/Pods/nanopb/pb_encode.c:769-850 | Every number that the memory of a scalar field (widths 1, 2, 4, 8) can hold is encoded and comes back, a boolean as 0 or 1. |
| WireReading.IntegerRead | SwiftProjects/Foundation-master/Pods/nanopb/pb_decode.c:1329-1412 | Which number an integer field of any width makes of a varint of any form, also of other encoders: unsigned and zigzag numbers must fit, signed ones are the 64-bit two's complement, or that of the low half in narrower fields; varints of more than ten bytes are refused. |
| WireReading.BoolRead | SwiftProjects/Foundation-master/Pods/nanopb/pb_decode.c:1318-1327 | A boolean is true exactly when one of the low 32 bits of the varint is set. |
| WireReading.WordRead | SwiftProjects/Foundation-master/Pods/nanopb/pb_decode.c:1283-1315 | Words of four and eight bytes start with their lowest byte. |
| WireReading.BytesRead | SwiftProjects/Foundation-master/Pods/nanopb/pb_decode.c:1431-1546 | A byte string of any kind is taken as it is exactly when there is room for it, with the size or the terminator that is stored as well. |
| WireReading.EmptyIsDefault | SwiftProjects/Foundation-master/Pods/nanopb/pb_decode.c:1527-1546 | For a byte string of fixed length an empty payload is the default value. |
| WireReading.CharactersExact | SwiftProjects/Foundation-master/Pods/nanopb/pb_encode.c:875-899 | Of a string the longest part without terminator that lies in the array is sent. |
| Descriptor.NarrowAccepts | SwiftProjects/Foundation-master/Pods/nanopb/pb_decode.c:1329-1412 | Unsigned and zigzag numbers are accepted exactly when they fit the width of the field; plain signed numbers are cut to 32 bits first, so that a 32-bit field accepts every number. |
| Message.FindUnique | SwiftProjects/Foundation-master/Pods/nanopb/pb_common.c:78-95 | With distinct tags, lookup gives the position of the field whatever other fields there are. |
| Message.DefaultsShaped | SwiftProjects/Foundation-master/Pods/nanopb/pb_decode.c:836-919 | Initialisation gives every slot the form that its descriptor asks for, recursively. |
| Layout.MessageShaped | SwiftProjects/Foundation-master/Pods/nanopb/pb_decode.c:925-1073 | Decoding any input keeps the layout of the struct: kinds of slots, lengths of fixed-count arrays, counts of pointer arrays within PB_SIZE_MAX, embedded submessages recursively. |
| Layout.RepeatedBound | SwiftProjects/Foundation-master/Pods/nanopb/pb_decode.c:424-464 | The count of an array never exceeds its capacity. |
| FieldIterator.WalkIsLayout | SwiftProjects/Foundation-master/Pods/nanopb/pb.h:399-409 | Given the offset and the size of every struct member (eight bytes for a pointer, all elements for an array), the offsets accumulated entry by entry from a table made by the descriptor macros equal the struct offsets, also for shared union members. |
| FieldIterator.WalkApart | SwiftProjects/Foundation-master/Pods/nanopb/pb_common.c:37-76 | The data pointer of a field is behind all bytes of every field before it that is no union member; behind a pointer it is at least eight bytes further. |
| FieldIterator.FieldIter.Begin | SwiftProjects/Foundation-master/Pods/nanopb/pb_common.c:8-18 | The iterator starts at the first field with its data and size pointers. |
| FieldIterator.FieldIter.Next | SwiftProjects/Foundation-master/Pods/nanopb/pb_common.c:20-76 | One step keeps the pointers at the accumulated offsets of the current field and the required-field index at the number of required fields before it; behind the last field it wraps and says so. |
| InputStream.IStream.ReadByte | SwiftProjects/Foundation-master/Pods/nanopb/pb_decode.c:141-157 | One byte is taken from the front, or the stream is empty; position plus bytes left is unchanged. |
| InputStream.IStream.Read | SwiftProjects/Foundation-master/Pods/nanopb/pb_decode.c:102-137 | count bytes are copied and consumed exactly when that many are left; position plus bytes left is unchanged. |
| InputStream.IStream.Discard | SwiftProjects/Foundation-master/Pods/nanopb/pb_decode.c:102-137 | The same without a destination. |
| Reader.DecodeVarint32Eof | SwiftProjects/Foundation-master/Pods/nanopb/pb_decode.c:187-247 | The loop computes the 32-bit varint function on the bytes left, and eof means that there was no byte. |
| Reader.DecodeVarint | SwiftProjects/Foundation-master/Pods/nanopb/pb_decode.c:255-275 | The loop returns the base-128 value modulo 2^64 of a varint of at most ten bytes and refuses everything else. |
| Reader.SkipVarint | SwiftProjects/Foundation-master/Pods/nanopb/pb_decode.c:278-287 | Passes exactly over the bytes up to the first one without continuation bit. |
| Reader.SkipField | SwiftProjects/Foundation-master/Pods/nanopb/pb_decode.c:321-331 | Passes over exactly the payload given by the wire type; other wire types fail. |
| Wire.SkipExact | SwiftProjects/Foundation-master/Pods/nanopb/pb_decode.c:321-331 | Skipping leaves `rest` if and only if the bytes are a payload of the wire type and then `rest`: a varint of any length, eight bytes, a length and that many bytes, or four bytes; with other wire types nothing is skipped. |
| WireReading.TagWord | SwiftProjects/Foundation-master/Pods/nanopb/pb_decode.c:298-319 | The tag word: the wire type in the three low bits, the tag above; only the word zero ends a message. |
| Reader.DecodeTag | SwiftProjects/Foundation-master/Pods/nanopb/pb_decode.c:298-319 | Splits the tag word; a zero word, or no byte, ends the message; anything else fails. |
| Reader.MakeStringSubstream | SwiftProjects/Foundation-master/Pods/nanopb/pb_decode.c:372-385 | The substream is exactly the announced bytes and lies inside the parent; the parent keeps the bytes behind it. |
| Reader.CloseStringSubstream | SwiftProjects/Foundation-master/Pods/nanopb/pb_decode.c:387-400 | The parent continues exactly behind the substream, however much of it was read. |
| Decoder.DecodeFixed | SwiftProjects/Foundation-master/Pods/nanopb/pb_decode.c:1283-1315 | Shifting and or-ing the bytes gives the little-endian number. |
| Decoder.DecodeScalar | SwiftProjects/Foundation-master/Pods/nanopb/pb_decode.c:1318-1429 | Each scalar decoder with its casts and range checks computes the scalar function. |
| Decoder.DecBytes | SwiftProjects/Foundation-master/Pods/nanopb/pb_decode.c:1431-1466 | The byte array is read exactly when it fits the array struct. |
| Decoder.DecString | SwiftProjects/Foundation-master/Pods/nanopb/pb_decode.c:1468-1501 | The string is read exactly when it fits with its terminator; the 32-bit sum that would wrap is refused. |
| Decoder.DecFixedLengthBytes | SwiftProjects/Foundation-master/Pods/nanopb/pb_decode.c:1527-1548 | Accepts exactly the fixed length, or length zero as all zeros. |
| RequiredBitmap.Mark | SwiftProjects/Foundation-master/Pods/nanopb/pb_decode.c:1012-1017 | Or-ing the shifted bit adds exactly the given index to the set of noted indices. |
| RequiredBitmap.Check | SwiftProjects/Foundation-master/Pods/nanopb/pb_decode.c:1048-1069 | Comparing whole words and a mask for the rest holds exactly when every index below min(64, required) is noted, including counts 32 and 64. |
| RequiredBitmap.CheckMeaning | SwiftProjects/Foundation-master/Pods/nanopb/pb_decode.c:1051-1068 | The words-and-mask comparison as a statement about bits, in both directions. |
| MessageDecoder.NotedMeaning | SwiftProjects/Foundation-master/Pods/nanopb/pb_decode.c:1030-1070 | If the bitmap notes the required fields seen by their number, then checking the bits below the number of required fields is checking that each tracked required field was seen. |
| MessageDecoder.CheckRequired | SwiftProjects/Foundation-master/Pods/nanopb/pb_decode.c:1030-1070 | Moving the iterator from wherever it stands to the end, with the correction for a last field that is required, and comparing the bitmap succeeds exactly when each tracked required field was seen. |
| MessageDecoder.SetToDefaults | SwiftProjects/Foundation-master/Pods/nanopb/pb_decode.c:908-919 | The iterator loop sets every slot of the struct, recursively, to its default, whatever was there. |
| MessageDecoder.FieldSetToDefault | SwiftProjects/Foundation-master/Pods/nanopb/pb_decode.c:836-906 | Initialises exactly one slot: presence, default value or zero, empty arrays; array contents stay undefined. |
| MessageDecoder.DecodePackedStatic | SwiftProjects/Foundation-master/Pods/nanopb/pb_decode.c:424-451 | The elements are stored one behind the other within the array; the record is accepted exactly when all bytes are used by well-formed elements that fit, and the parent stream ends behind it. |
| MessageDecoder.DecodePackedPointer | SwiftProjects/Foundation-master/Pods/nanopb/pb_decode.c:595-652 | Accepts the record exactly when its elements are well formed and the count stays within PB_SIZE_MAX, and appends them in order; its loop keeps count <= capacity <= PB_SIZE_MAX and stores each element below the capacity. |
| MessageDecoder.Reserve | SwiftProjects/Foundation-master/Pods/nanopb/pb_decode.c:610-635 | There is room for one more element exactly when the count is below PB_SIZE_MAX. |
| MessageDecoder.DecSubmessage | SwiftProjects/Foundation-master/Pods/nanopb/pb_decode.c:1503-1525 | A submessage is decoded from its own bytes only, into a fresh struct for array elements and into the existing one otherwise; the parent continues behind it. |
| MessageDecoder.DecodeStaticSingle | SwiftProjects/Foundation-master/Pods/nanopb/pb_decode.c:414-475 | A record of a required, optional or union field stores the item and its presence, resets a union submessage, and clears the other members of the union; the wire type is not looked at. |
| MessageDecoder.DecodeStaticRepeated | SwiftProjects/Foundation-master/Pods/nanopb/pb_decode.c:424-464 | A record of a static array is packed or one item, stored at the count, and fails when the array is full. |
| MessageDecoder.DecodePointerSingle | SwiftProjects/Foundation-master/Pods/nanopb/pb_decode.c:563-592 | A record of a pointer field replaces what was there; submessages start afresh. |
| MessageDecoder.DecodePointerRepeated | SwiftProjects/Foundation-master/Pods/nanopb/pb_decode.c:594-669 | A record of a pointer array appends its elements. |
| MessageDecoder.DecodeFound | SwiftProjects/Foundation-master/Pods/nanopb/pb_decode.c:988-1020 | The counter that stands in for the count of a fixed-count array follows the specification: a new run starts at zero and only when the previous one is full. |
| MessageDecoder.NextField | SwiftProjects/Foundation-master/Pods/nanopb/pb_decode.c:943-986 | Tag, lookup from wherever the iterator stands, extension placeholder and skipping: afterwards the rest decodes to the same outcome as before. |
| MessageDecoder.DecodeRecords | SwiftProjects/Foundation-master/Pods/nanopb/pb_decode.c:943-1021 | The loop reaches the outcome of the specification on all bytes, with the struct, the counters and the bitmap in step with it; it terminates because every record uses bytes. |
| MessageDecoder.DecodeNoinit | SwiftProjects/Foundation-master/Pods/nanopb/pb_decode.c:925-1073 | On every input on which the pointer members of unions find addresses: succeeds exactly when the decoding function does, with the same struct and the same rest of the stream; position plus bytes left is unchanged. |
| MessageDecoder.Decode | SwiftProjects/Foundation-master/Pods/nanopb/pb_decode.c:1075-1087 | The same behind initialisation, whatever the struct held before; with uniform unions on every input, and with mixed unions on every encoding. |
| MessageDecoder.DecodeDelimited | SwiftProjects/Foundation-master/Pods/nanopb/pb_decode.c:1104-1117 | Reads a length and decodes exactly that many bytes. |
| MessageDecoder.DecodeDelimitedNoinit | SwiftProjects/Foundation-master/Pods/nanopb/pb_decode.c:1089-1102 | The same into an initialised struct. |
| MessageDecoder.DecodeNullTerminated | SwiftProjects/Foundation-master/Pods/nanopb/pb_decode.c:1119-1123 | Decodes up to the terminator or the end. |
| Allocation.SizeAcceptable | SwiftProjects/Foundation-master/Pods/nanopb/pb_decode.c:491-519 | The overflow test accepts exactly nonzero sizes whose product is at most SIZE_MAX, although it divides only for large factors. |
| Allocation.Grow | SwiftProjects/Foundation-master/Pods/nanopb/pb_decode.c:617-632 | The new capacity is larger and at most PB_SIZE_MAX: the least that has room for all items in the remaining bytes, or one more item when that would reach PB_SIZE_MAX. |
| OutputStream.OStream.Write | SwiftProjects/Foundation-master/Pods/nanopb/pb_encode.c:103-124 | Appends exactly the bytes when they fit, refuses them otherwise, never touches memory before the position or from the limit on; a counting stream adds modulo 2^64. |
| OutputStream.OStream.BufWrite | SwiftProjects/Foundation-master/Pods/nanopb/pb_encode.c:74-84 | Copies the bytes to the position and leaves all other memory alone. |
| OutputStream.StepThen | SwiftProjects/Foundation-master/Pods/nanopb/pb_encode.c:709-715 | Writing one part and then another is writing their concatenation: success, count, position, contents and untouched memory. |
| Writer.EncodeVarint | SwiftProjects/Foundation-master/Pods/nanopb/pb_encode.c:608-628 | The loop over the ten-byte buffer stays inside it and writes exactly the base-128 groups. |
| Writer.EncodeSvarint | SwiftProjects/Foundation-master/Pods/nanopb/pb_encode.c:630-639 | Writes the zigzag form. |
| Writer.EncodeFixed | SwiftProjects/Foundation-master/Pods/nanopb/pb_encode.c:641-666 | Writes the little-endian bytes obtained by shifting. |
| Writer.EncodeTag | SwiftProjects/Foundation-master/Pods/nanopb/pb_encode.c:669-673 | Or-ing the wire type into the shifted tag writes tag * 8 + wire type. |
| Writer.EncodeTagForField | SwiftProjects/Foundation-master/Pods/nanopb/pb_encode.c:675-707 | Chooses the wire type of the field, or fails for an extension placeholder. |
| Writer.EncodeString | SwiftProjects/Foundation-master/Pods/nanopb/pb_encode.c:709-715 | Writes a length and the bytes. |
| Writer.EncodeScalar | SwiftProjects/Foundation-master/Pods/nanopb/pb_encode.c:769-850 | Each scalar encoder writes the bytes of the scalar function, and fails for a width that is not 1, 2, 4 or 8. |
| Writer.EncodeBytesField | SwiftProjects/Foundation-master/Pods/nanopb/pb_encode.c:852-873 | Writes the array exactly when its struct size neither overflows nor exceeds a static field. |
| Writer.EncodeStringField | SwiftProjects/Foundation-master/Pods/nanopb/pb_encode.c:875-899 | Writes the characters up to the terminator or the end of a static array. |
| Writer.EncodeFixedLengthBytes | SwiftProjects/Foundation-master/Pods/nanopb/pb_encode.c:909-912 | Writes all bytes of the field. |
| Encoder.PackedSize | SwiftProjects/Foundation-master/Pods/nanopb/pb_encode.c:169-189 | The size found in advance, by a product or by a counting pass, is exactly the length of the elements. |
| Encoder.EncodePacked | SwiftProjects/Foundation-master/Pods/nanopb/pb_encode.c:164-205 | Writes tag, length and elements: the length equals the bytes that follow. |
| MessageEncoder.EncodeSubmessage | SwiftProjects/Foundation-master/Pods/nanopb/pb_encode.c:717-765 | Writes the length and the encoding of the submessage at every depth, or fails exactly when there is none or it does not fit; the branch "submsg size changed" is proved unreachable in the body of MessageEncoder.EncodeSized. |
| MessageEncoder.WindowDone | SwiftProjects/Foundation-master/Pods/nanopb/pb_encode.c:746-764 | A window of exactly the announced size always takes the payload, is filled to the last byte, and leaves the parent behind it. |
| MessageEncoder.EncodeArray | SwiftProjects/Foundation-master/Pods/nanopb/pb_encode.c:147-236 | Writes nothing for no items, refuses more than a static array holds, packs what can be packed, and otherwise writes one record for each item. |
| MessageEncoder.EncodeField | SwiftProjects/Foundation-master/Pods/nanopb/pb_encode.c:341-426 | Writes the field exactly when it is required, flagged, selected, non-null or not zero; a missing required pointer fails. |
| MessageEncoder.CheckProto3Default | SwiftProjects/Foundation-master/Pods/nanopb/pb_encode.c:240-337 | Computes the zero test, by a loop over the fields of a submessage. |
| MessageEncoder.Encode | SwiftProjects/Foundation-master/Pods/nanopb/pb_encode.c:528-550 | Writes the encoding of the whole struct: it succeeds exactly when there is one and it fits, writes exactly these bytes behind what is there, and touches nothing else even when it fails. |
| MessageEncoder.GetEncodedSize | SwiftProjects/Foundation-master/Pods/nanopb/pb_encode.c:567-576 | Succeeds exactly when the struct can be encoded, and returns the exact length. |
| MessageEncoder.SizingIsExact | SwiftProjects/Foundation-master/Pods/nanopb/pb_encode.c:567-576 | A counting pass and a writing pass for the same bytes: a buffer of n bytes is enough exactly when n is at least the size counted, then exactly that many bytes are written, and memory from n on is untouched. |
| MessageEncoder.EncodeDelimited | SwiftProjects/Foundation-master/Pods/nanopb/pb_encode.c:552-555 | Writes the message behind its length. |
| MessageEncoder.EncodeNullTerminated | SwiftProjects/Foundation-master/Pods/nanopb/pb_encode.c:557-565 | Writes the message with a zero byte behind it. |
| Release.ReleaseStruct | SwiftProjects/Foundation-master/Pods/nanopb/pb_decode.c:1245-1259 | Frees exactly the blocks the struct owns, each once, but for those whose pointers stand behind a count, and leaves every slot in use NULL; a torn pointer among them is given back as it is. |
| Release.NullOwnsHidden | SwiftProjects/Foundation-master/Pods/nanopb/pb_decode.c:1239-1241 | A struct whose slots in use are all NULL owns only blocks whose pointers stand behind a count. |
| Release.ReleaseField | SwiftProjects/Foundation-master/Pods/nanopb/pb_decode.c:1154-1243 | The same for one field: contents of submessages up to the count, strings of an array, then the block itself; what stood behind a count inside that block is lost. |
| Ownership.Heap.Realloc | SwiftProjects/Foundation-master/Pods/nanopb/pb_decode.c:521-529 | Given NULL or a live block, the slot owns one block afterwards as before: the old one on failure or in place, a new one with the old freed otherwise. |
| Ownership.Heap.Free | SwiftProjects/Foundation-master/Pods/nanopb/pb_decode.c:1239-1241 | Only a live block may be freed, and it is live no longer. |
| Framing.FramedRoundTrip | SwiftProjects/Foundation-master/Pods/nanopb/pb_decode.c:1104-1123 | Any sequence of messages written back to back with lengths in front (below 2^32), or with zero bytes behind (of any length), is read back as the same sequence, ending where the encoder ended. |
| Framing.DelimitedDecodes | SwiftProjects/Foundation-master/Pods/nanopb/pb_decode.c:1104-1117 | The decoder of a length-prefixed message below 2^32 bytes gives the message and stops exactly behind it, whatever follows. |
| Framing.NullTerminatedDecodes | SwiftProjects/Foundation-master/Pods/nanopb/pb_decode.c:298-319 | A message followed by a zero byte is decoded up to exactly that byte: no tag word that the encoder writes is zero. |
| FieldIterator.FieldIter.Find | SwiftProjects/Foundation-master/Pods/nanopb/pb_common.c:78-95 | Search from any start takes at most one cycle of steps, succeeds exactly when a field other than an extension placeholder has the tag (tag 0 in an empty table), stands on such a field, and a failed search ends where it began. |
| FieldIterator.FieldIter.FindExtension | SwiftProjects/Foundation-master/Pods/nanopb/pb_decode.c:822-833 | Search from any start takes at most one cycle of steps, succeeds exactly when there is an extension placeholder, stands on it, and a failed search ends where it began. |
| FieldIterator.CountStaysInside | SwiftProjects/Foundation-master/Pods/nanopb/pb_decode.c:862-869 | The count of zero that initialisation stores at an array without count stays inside an array of at least four bytes, and reaches no later field. |
| FieldIterator.CountInsideExact | SwiftProjects/Foundation-master/Pods/nanopb/pb_decode.c:862-869 | With the next field right behind the array, that store stays inside if and only if the array has at least four bytes. |
| Reencode.Reencoded | SwiftProjects/Foundation-master/Pods/nanopb/pb_encode.c:528-550 | For arbitrary bytes that the decoder accepts and on which pointer members find addresses: when the encoder encodes the decoded struct in fewer than 2^32 bytes, these bytes are of that kind again, are accepted and used up, give the struct as sent, and, with zero defaults, one that looks the same. |
| Reencode.MessageSound | SwiftProjects/Foundation-master/Pods/nanopb/pb_decode.c:925-1073 | Decoding any bytes leaves scalars in the range of their fields, byte strings that fit, and at most one member in each union, at every depth. |
| Reencode.Sendable32 | SwiftProjects/Foundation-master/Pods/nanopb/pb_encode.c:528-550 | A struct of that kind that the encoder encodes in fewer than 2^32 bytes meets every condition of the round trip. |
| Stale.MessageCovered | SwiftProjects/Foundation-master/Pods/nanopb/pb_decode.c:862-869 | What the elements of arrays without count hold before decoding changes neither the verdict, nor the bytes used, nor anything decoded. |
| Stale.DecodedAgain | SwiftProjects/Foundation-master/Pods/nanopb/pb_decode.c:1075-1087 | Decoding into a struct that was in use and is initialised again has the outcome of decoding into a fresh one. |
| Unions.UniformFinds | SwiftProjects/Foundation-master/Pods/nanopb/pb_decode.c:1128-1152 | In a union whose members are all in place or all behind pointers, no input and no earlier contents make the decoder take anything but an address for a pointer. |
| Unions.UnionExact | SwiftProjects/Foundation-master/Pods/nanopb/pb_decode.c:1128-1152 | For every table, uniform or not: in a fresh struct all inputs find addresses or NULL if and only if the union does not have both a pointer member and a member in place of which some item leaves a nonzero byte in the word when it has been released (the release sets pointers inside it to NULL and their counts to zero). |
| Unions.MixedFinds | SwiftProjects/Foundation-master/Pods/nanopb/pb_decode.c:487-489 | The input for such a union: an accepted item of the member in place that leaves a nonzero byte of the word behind its release, and then the tag of the pointer member. |
| Unions.PlainMarks | SwiftProjects/Foundation-master/Pods/nanopb/pb_decode.c:1318-1501 | Of a member with the sizes of its type, unless it is a submessage, some item leaves such a byte if and only if there is room for one. |
| Unions.EmptyMarksNothing | SwiftProjects/Foundation-master/Pods/nanopb/pb_decode.c:471-474 | A submessage without fields never leaves one. |
| Unions.PointersMarkNothing | SwiftProjects/Foundation-master/Pods/nanopb/pb_decode.c:1180-1241 | A submessage of pointers only, single or arrays, never leaves one: its release sets them to NULL and the counts to zero. |
| Unions.TitledFinds | SwiftProjects/Foundation-master/Pods/nanopb/pb_decode.c:1141-1146 | A message with one string pointer in place and a string pointer in one union: members of both kinds, but every input finds addresses. |
| Unions.SubmessageMarks | SwiftProjects/Foundation-master/Pods/nanopb/pb_decode.c:1503-1525 | A submessage leaves one when its type accepts a payload that leaves one in cleared memory, followed byte by byte. |
| Unions.SelectMember | SwiftProjects/Foundation-master/Pods/nanopb/pb_decode.c:563-592 | A record of a union member: the other member is released before, the slot is NULL or its own live block when it is reallocated, a member in place is stored over the bytes that are left, and the account of blocks is kept; this requires that nothing is left where a pointer is to be read. |
| Unions.ReleaseUnion | SwiftProjects/Foundation-master/Pods/nanopb/pb_decode.c:1128-1152 | Before another member a pointer is freed and NULL; of a member in place the pointers and the counts of pointer arrays become zero, and exactly its other bytes stay. |
| Unions.FollowUnion | SwiftProjects/Foundation-master/Pods/nanopb/pb_decode.c:943-1021 | Over a whole message, where addresses are found, every reallocation in the union gets NULL or a live block, also when allocations fail; when none fails, the records are accepted exactly as their values are. |
| Unions.FiveBytes | SwiftProjects/Foundation-master/Pods/nanopb/pb_decode.c:487-489 | 08 05 12 01 61 for a number in place and a string behind a pointer in one union: accepted as values, but the string finds the number. |
| StructImage.LoopStored | SwiftProjects/Foundation-master/Pods/nanopb/pb_decode.c:943-1021 | As far as decoding goes, on every input and at every depth, the bytes of a released struct that `WordBytes` follows are those of the decoded values: numbers from their lowest byte on, strings, byte arrays behind their size, each element at its place, flags, counts and selectors, and zeros for pointers and their counts. |
| StructImage.InitShown | SwiftProjects/Foundation-master/Pods/nanopb/pb_decode.c:836-919 | Initialisation leaves the bytes of the default values, whatever was there before. |
| StructImage.UnionStored | SwiftProjects/Foundation-master/Pods/nanopb/pb_decode.c:465-480 | A union holds the bytes of the item that is stored in it, whatever it held before. |
| StructImage.NothingToMark | SwiftProjects/Foundation-master/Pods/nanopb/pb_decode.c:1128-1152 | When no item of a member leaves a nonzero byte, the first eight bytes of every item it accepts are zero, apart from pointers and their counts. |
| StructImage.ClearedApart | SwiftProjects/Foundation-master/Pods/nanopb/pb_decode.c:1180-1241 | What the release of a member in place clears is nothing of what stays. |
| Lifecycle.Lifetime | SwiftProjects/Foundation-master/Pods/nanopb/pb_decode.c:1075-1087 | From zeroed memory, for every input and every pattern of failing allocations: decoding agrees with the decoder on values; each live block is owned by exactly one pointer or is lost; failure, and the release, free all but the lost ones and those behind counts and leave every slot in use NULL; a second release frees nothing. On a tight schema nothing is lost and the release frees everything; on a clean one no torn pointer is ever given back. An input that does one of the two kinds of damage, accepted or not, loses a block that stays live, or makes a release give back a torn pointer. |
| PointerDecoder.DecodeNoinit | SwiftProjects/Foundation-master/Pods/nanopb/pb_decode.c:925-1073 | Over all records the account of blocks is kept, successful or not; the verdict is that of the decoder on values; every pointer set in the value has a block behind it; the elements not decoded yet still hold their older pointers; nothing is lost on a tight schema and nothing torn on a clean one. |
| PointerDecoder.Decode | SwiftProjects/Foundation-master/Pods/nanopb/pb_decode.c:1075-1087 | The same behind initialisation; the pointers it overwrites are lost, and on failure everything in use is freed and NULL. |
| PointerDecoder.DecodeField | SwiftProjects/Foundation-master/Pods/nanopb/pb_decode.c:731-757 | A record of any field keeps the account; where it overwrites an older pointer, in whole or in part, the block is lost or the torn pointer is in sight. |
| PointerDecoder.DecodePointerField | SwiftProjects/Foundation-master/Pods/nanopb/pb_decode.c:550-675 | A record of a pointer field keeps the account for duplicates, arrays that move, and each kind of failure. |
| PointerDecoder.DecodePackedPointer | SwiftProjects/Foundation-master/Pods/nanopb/pb_decode.c:595-652 | The block of a packed array stays owned by its slot through every growth and failed growth, and has as many elements as the decoded array. |
| PointerDecoder.DecodeStaticField | SwiftProjects/Foundation-master/Pods/nanopb/pb_decode.c:406-480 | A record of a static field keeps the account for submessages in place and in arrays, and leaves later elements of an array alone. |
| PointerDecoder.DecodeItem | SwiftProjects/Foundation-master/Pods/nanopb/pb_decode.c:454-464 | An element of a static array is decoded over what its memory holds: an element of this run or an older one, also one behind the count, which is raised first and stays raised on failure, also when the array is full; the memory owns nothing unless the type is initialised while in use. |
| PointerDecoder.DecodeInPlace | SwiftProjects/Foundation-master/Pods/nanopb/pb_decode.c:1513-1525 | A submessage in place is decoded into the struct that is there, without initialisation. |
| PointerDecoder.DecodeText | SwiftProjects/Foundation-master/Pods/nanopb/pb_decode.c:1431-1501 | A string or byte array gets the block of its slot resized; a string that is announced but cut off leaves the block owned. |
| Initial.ResetKeeps | SwiftProjects/Foundation-master/Pods/nanopb/pb_decode.c:836-919 | Initialisation, which also clears the first four bytes of arrays without count, makes no block owned that was not owned before. |
| Initial.PointerFreeOwnsNothing | SwiftProjects/Foundation-master/Pods/nanopb/pb.h:239-252 | A struct whose type has no pointer fields, also inside its submessages, owns nothing. |
| Initial.ResetSane | SwiftProjects/Foundation-master/Pods/nanopb/pb_decode.c:862-869 | Initialisation tears no pointer in a struct that owns nothing, nor on a clean schema in one that is initialised while in use. |
| Initial.TightHidden | SwiftProjects/Foundation-master/Pods/nanopb/pb_decode.c:862-864 | On a tight schema no block hides behind a count. |
| Initial.TearHides | SwiftProjects/Foundation-master/Pods/nanopb/pb_decode.c:862-869 | When the count of an array is among the bytes cleared at the start of an array without count, its elements go out of sight with all they own. |
| Backing.DropsBlocks | SwiftProjects/Foundation-master/Pods/nanopb/pb_decode.c:862-901 | Initialising a struct that holds a pointer outside arrays, or within the first four bytes of an array without count, leaves fewer blocks owned. |
| Backing.TearsShow | SwiftProjects/Foundation-master/Pods/nanopb/pb_decode.c:862-869 | When a pointer that is set stands within the first four bytes of an array without count, initialisation leaves a torn pointer where a release comes by. |
| Backing.ResetPast | SwiftProjects/Foundation-master/Pods/nanopb/pb_decode.c:862-869 | Otherwise the elements of all arrays still hold their pointers behind initialisation. |
| Reuse.TightUsed | SwiftProjects/Foundation-master/Pods/nanopb/pb_decode.c:994-1010 | On a tight schema only structs without pointers are initialised while in use. |
| Reuse.NotTight | SwiftProjects/Foundation-master/Pods/nanopb/pb_decode.c:994-1010 | On a schema that is not tight some struct type that may hold pointers is initialised while in use. |
| Overwritten.TwoArraysLose | SwiftProjects/Foundation-master/Pods/nanopb/pb_decode.c:994-1010 | For every table with an array of submessages without count and another array without count, and every message whose elements hold a pointer: there is an accepted input that loses a block. |
| Overwritten.InPlaceTwiceLoses | SwiftProjects/Foundation-master/Pods/nanopb/pb_decode.c:931-937 | For every submessage in place with such an array, and every message whose elements hold a pointer: there is an input that loses a block, also when it is rejected; it is accepted exactly when the submessage has no required fields. |
| Overwritten.NotTightCases | SwiftProjects/Foundation-master/Pods/nanopb/pb_decode.c:931-937 | A schema that is not tight has one of these two situations. |
| Overwritten.Resend | SwiftProjects/Foundation-master/Pods/nanopb/pb_decode.c:1503-1525 | Receiving the same element over itself loses a block whenever it holds one, at any depth: in place, in arrays without count, and in counted arrays whose count went back to zero. |
| Overwritten.SetDecodes | SwiftProjects/Foundation-master/Pods/nanopb/pb_decode.c:456-463 | A whole set of elements, packed or single, replaces all elements of a fixed-count array that is not the one being filled. |
| LostExample.FilledTwice | SwiftProjects/Foundation-master/Pods/nanopb/pb_decode.c:994-1010 | Fifteen bytes that the decoder accepts, in which an element with a string of its own is overwritten. |
| LostExample.LosingRun | SwiftProjects/Foundation-master/Pods/nanopb/pb_decode.c:1245-1259 | After decoding these bytes a block is live that no slot owns, and releasing the struct does not free it. |
| LostExample.AloneIsTight | SwiftProjects/Foundation-master/Pods/nanopb/pb_decode.c:931-937 | With the first array alone in its table the schema is tight. |
| TornPointers.CleanExact | SwiftProjects/Foundation-master/Pods/nanopb/pb_decode.c:862-869 | A schema is clean if and only if it has no array of submessages without count that can be filled again and in whose elements, or parts stored in them, a pointer stands within the first four bytes of an array without count. |
| TornPointers.TwoArraysTear | SwiftProjects/Foundation-master/Pods/nanopb/pb_decode.c:994-1010 | For every such array next to another array without count, and every message with a pointer in that place: there is an input that tears it. |
| TornPointers.InPlaceTwiceTears | SwiftProjects/Foundation-master/Pods/nanopb/pb_decode.c:931-937 | The same for such an array in a submessage in place. |
| TornPointers.TearAgain | SwiftProjects/Foundation-master/Pods/nanopb/pb_decode.c:1503-1525 | The payload: whole elements on the way to the struct that holds the pointer, and then nothing, so that it is initialised and left. |
| Exactness.ConditionsExact | SwiftProjects/Foundation-master/Pods/nanopb/pb_decode.c:862-869 | For every schema whose samples can be sent: it is tight if and only if no input loses a block, and clean if and only if no input tears a pointer. |
| Exactness.SafeUnharmed | SwiftProjects/Foundation-master/Pods/nanopb/pb_decode.c:994-1010 | On a tight schema no input overwrites a pointer, and on a clean one none overwrites a part of one, with or without samples. |
| Exactness.NotTightLoses | SwiftProjects/Foundation-master/Pods/nanopb/pb_decode.c:994-1010 | A schema that is not tight has an input that loses a block, made from its sample. |
| Exactness.NotCleanTears | SwiftProjects/Foundation-master/Pods/nanopb/pb_decode.c:862-869 | A schema that is not clean has an input that tears a pointer, made from its sample. |
| Samples.RichHolds | SwiftProjects/Foundation-master/Pods/nanopb/pb.h:239-252 | The sample of a type that has a pointer anywhere, stored in it, holds one when it has been received. |
| Samples.RichTearable | SwiftProjects/Foundation-master/Pods/nanopb/pb_decode.c:862-869 | The sample of a type that has a pointer at the start of an array without count holds one there when it has been received. |
| LostExample.TypesSampled | SwiftProjects/Foundation-master/Pods/nanopb/pb.h:239-252 | The samples of the types of the example can be sent. |
| LostExample.FourteenAccepted | SwiftProjects/Foundation-master/Pods/nanopb/pb_decode.c:994-1010 | Fourteen bytes that the decoder accepts, the last two of them an empty message in place of one that holds a string pointer. |
| LostExample.FourteenTears | SwiftProjects/Foundation-master/Pods/nanopb/pb_decode.c:862-869 | The last record initialises that message, and with it half of the pointer. |
| LostExample.TearingRun | SwiftProjects/Foundation-master/Pods/nanopb/pb_decode.c:1239-1241 | After decoding these fourteen bytes the release gives back the torn pointer. |

## Left out

- Callback fields, custom stream callbacks, custom extension handlers and attached extensions: calls into code that is
  not part of nanopb. Extension placeholders without anything attached are modelled; they write nothing and take no bytes.
- `PB_WITHOUT_64BIT`, `PB_OLD_CALLBACK_STYLE`, `PB_BUFFER_ONLY`, `PB_ENCODE_ARRAYS_UNPACKED`, the AVR work-around and the
  other configurations.
- Error message texts: only success or failure.
- Bytes of structs, alignment and padding. Structs are values: a submessage is decoded into a struct of its own and then
  stored, where the code writes through a pointer into the parent, so aliasing inside a struct is not captured. Offsets and
  bytes appear where the code depends on them: in the iterator, in unions and in initialisation.
- The selector of a union is given by the presence of its members, so a selector that names no member cannot occur, and
  a selected pointer member is taken to be non-null.
- Reading memory without a value (elements of a fixed-count array that were never set) is an error of the encoding
  function; the methods require that it does not happen (`SourceStruct.Filled`).
- Fixed-count arrays of numbers and strings after initialisation: the code clears the first four bytes of the array by way
  of the missing count; the model leaves all elements without a value, which says less. For pointers, and the counts of
  pointer arrays and of arrays of submessages, the four bytes are modelled (`Initial.Tear`).
- The zero test on a pointer to a number inside a singular submessage compares as many bytes of the address as the number
  has; the model takes every non-null pointer as not zero.
- MessageDecoder.DecodePointerSingle: takes allocation to succeed; `PointerDecoder` decodes the same records with failing
  allocations and agrees with it when none fails.
- MessageDecoder.DecodePointerRepeated: takes allocation to succeed, as above.
- MessageDecoder.DecodePackedPointer: takes allocation to succeed, as above.
- MessageEncoder.Encode: requires that the bytes counted do not exceed SIZE_MAX (`SourceStruct.OfMessage`, which is the
  length of the encoding when there is one), because beyond it the sizes wrap around.
- Lifecycle.Lifetime: for schemas without unions and extensions. A union member in place of message type that holds
  pointers is cleared without release when the same member comes again. The memory is zero at the start: initialisation
  does not clear the elements of arrays without count, and a release takes the pointers there as they are. A torn pointer
  is taken for no address, also if the part that was cleared was zero before.
- Initial.TearCell: a count is cleared when it starts within the cleared bytes, since structs are aligned
  (`PB_NO_PACKED_STRUCTS`); a pointer is torn when it starts there. `Release.CountsAhead` asks that the count of an array
  stands in front of its elements, as the generator places it.
- Exactness.ConditionsExact: for schemas whose samples can be sent (`Samples.Sampled`), which can be computed from the schema:
  no type requires itself without end, no counted array of submessages has capacity zero, and no submessage of the sample
  takes 2^32 bytes or more. Without it, the half for safe schemas still holds (`Exactness.SafeUnharmed`).
- TornPointers.TwoArraysTear: does not say whether the input is accepted; it may stop before an array is full. Accepted or
  not, a release is given the torn pointer.
- TornPointers.InPlaceTwiceTears: the same.
- Unions.SelectMember: follows the block of the union only; what a submessage behind it or in it holds is released as in
  `Release`.
- StructImage.LoopStored: for tables whose fields have places of their own, unless they are members of one union, and whose
  default values fit (`StructImage.Laid`). What a longer string leaves behind a shorter one that replaces it is followed by
  `WordBytes`, but the image says nothing of it.
- Evolution.OlderReceiver: for fields that both versions have with the same type, width and presence; a field whose type is
  changed is not covered.
- WordBytes.RecordBytes: pointers behind the count of an array are taken as released with the others; in aligned structs none
  of them stands in the first eight bytes.
- Observe.MessageRoundTrip: the received struct looks the same only if defaults of singular fields are zero
  (`Observe.OmissionExact` says why); without that condition `Observe.MessageReceived` says what is
  received.
- Reencode.Reencoded: takes the encoder's success as given; it refuses structs in which an array without count was not
  filled or a required pointer is missing.
- Varint.ReadersAgree: for varints of at most ten bytes, the most the 64-bit reader takes.
- The rest of the repository (views, layout, application code, string tables, wrappers of other libraries) has no part
  in the codec.
