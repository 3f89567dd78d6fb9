# E1.31 data packet codec

A Dafny model of the `e1_31` crate. The crate defines the record `e1_31_pkt` for one
E1.31 (streaming ACN) DMX data packet. It has a constructor `new` with default field
values and a binary codec over byte vectors: `deserialize`, a fixed-offset reader
driven by a cursor, and `serialize`, a sequential writer. Both follow the data packet
layout of ANSI E1.31-2018 section 4 (root layer, framing layer, DMP layer).

- `bytes.dfy` (module `Bytes`): byte and unsigned-integer subset types, big-endian
  16- and 32-bit encodings, zero padding, and the prefix of a slot before its first
  zero byte.
- `e131.dfy` (module `E131`): the packet record, `New`, the identifier `Header`, and
  the layout as two reference functions, `Encode` (built from the root, framing and
  DMP layer headers) and `Decode`. It also has the
  imperative procedures of the source, each proved to compute its reference function:
  - `Deserialize`: a cursor position, field-by-field updates of a packet that starts
    as `New()`, and the value loop.
  - `Serialize`: sequential appends and the value loop.
  - `CopyName`: the zeroed 64-byte name buffer filled by the index loop.
- `properties.dfy` (module `E131Properties`): the byte layout of the encoding, when
  decoding succeeds and what it reads, the bytes it ignores, the round trip, the
  refusal of truncated and corrupted buffers, and the default packet.

The datatype `E131.Packet` models the struct `e1_31_pkt` (src/lib.rs:11-21) field
for field, and the constant `E131.Header` models `HEADER` (src/lib.rs:9). Bytes are
integers in 0..255. The source name is its byte sequence. The struct field `seq` is
called `sequence`, because `seq` is a Dafny keyword.

Facts about the code that shape the model:
- An encoded packet is 125 + |values| bytes.
- The encoder writes every header field, including the name slot, priority, sync
  address, sequence number, options, universe and the framing length field.
- A name over 64 bytes is not truncated. For a 65th byte the copy loop attempts to
  write index 64 of the 64-byte buffer, which fails the bounds check and panics. So
  `Serialize` requires `|sourceName| <= 64`.
- A 64-byte name with no zero byte fills the slot and leaves no terminating zero.
  Decoding the result then panics (`FullNameUnterminated`).

## Model

| member | source | states |
|---|---|---|
| `Bytes.BE16` | src/lib.rs:156-172 | the two bytes written for a u16 are most significant first and recombine to the value |
| `Bytes.FromBE16` | src/lib.rs:84-112 | reading two big-endian bytes gives the u16 whose encoding is exactly those bytes |
| `Bytes.BE32` | src/lib.rs:133-138 | the four bytes written for a u32 are its high half then its low half, each big-endian, and recombine to the value |
| `Bytes.BeforeNul` | src/lib.rs:77 | the name read from the slot is a prefix of the slot, has no zero byte, and is followed by a zero byte |
| `Bytes.BeforeNulOfPadded` | src/lib.rs:142-154 | a name without zero bytes, padded with at least one zero, reads back as the name |
| `E131.HeaderSpellsIdentifier` | src/lib.rs:9 | `HEADER` is the ASCII text "ASC-E1.17" followed by three zero bytes |
| `E131.New` | src/lib.rs:24-35 | the default packet: zero cid, empty name, priority 100, sync address, sequence, options, universe and count 0, no values; its count agrees with its values |
| `E131.Encode` | src/lib.rs:125-179 | the bytes `serialize` writes: 125 + \|values\| of them, the identifier at 4..15, the values verbatim from 125 |
| `E131.RootLayer` | src/lib.rs:129-135 | the 38 root-layer bytes, with the identifier at 4..15 and the cid at 22..37 |
| `E131.FramingLayer` | src/lib.rs:136-164 | the 77 framing-layer bytes, with the zero-padded name slot at their offsets 6..69 |
| `E131.DmpLayer` | src/lib.rs:166-172 | the 10 DMP-layer bytes, ending with the big-endian count |
| `E131.Decode` | src/lib.rs:37-123 | a decoded packet always has as many values as its count field |
| `E131.Deserialize` | src/lib.rs:37-123 | the cursor walk (short reads give None, identifier check, value loop) returns exactly `Decode(data)` |
| `E131.CopyName` | src/lib.rs:140-154 | the index loop leaves the 64-byte buffer holding the name followed by zeros |
| `E131.Serialize` | src/lib.rs:125-179 | the sequential writes and the values loop produce exactly `Encode(p)` |
| `E131Properties.EncodeLayers` | src/lib.rs:129-176 | the output is the 38-byte root layer, the 77-byte framing layer, the 10-byte DMP layer, then the values |
| `E131Properties.RootLayout` | src/lib.rs:129-135 | root layer: preamble size 00 10, post-amble size 00 00, identifier, root length field, vector 00 00 00 04, cid |
| `E131Properties.FramingLayout` | src/lib.rs:136-164 | framing layer: length field, vector 00 00 00 02, zero-padded name slot, priority, sync address, sequence, options, universe |
| `E131Properties.DmpLayout` | src/lib.rs:166-172 | DMP layer: length field, 02 A1 00 00 00 01, count big-endian |
| `E131Properties.EncodeConstants` | src/lib.rs:129-171 | output length is 125 + \|values\| whatever the count says; bytes 0..1 (preamble size) are 00 10, 2..3 (post-amble size) are 00 00, 4..15 are `Header`, 18..21 are 00 00 00 04, 40..43 are 00 00 00 02, 117..122 are 02 A1 00 00 00 01 |
| `E131Properties.EncodeLengthFields` | src/lib.rs:132-166 | the length fields at 16, 38 and 115 are tag + count + 109, 87 and 10, big-endian |
| `E131Properties.EncodeFields` | src/lib.rs:135-176 | cid at 22..37, zero-padded name at 44..107, priority 108, sync address 109..110, sequence 111, options 112, universe 113..114, count 123..124, values verbatim from 125 |
| `E131Properties.DecodeSucceedsIff` | src/lib.rs:41-122 | decoding gives a packet if and only if the identifier matches and the buffer holds 125 + count bytes |
| `E131Properties.DecodeRejectsForeignIdentifier` | src/lib.rs:47-54 | a buffer whose bytes 4..15 differ from `Header` decodes to None |
| `E131Properties.DecodeFields` | src/lib.rs:62-122 | every decoded field equals the bytes at its offset; the name is the slot before its first zero; values are the count bytes from 125 |
| `E131Properties.DecodeIgnoresSkipped` | src/lib.rs:41-112 | changing a byte in 0..3 (preamble and post-amble sizes), 16..21, 38..43, 115..122 or past 125 + count leaves the decoded result unchanged |
| `E131Properties.DecodeIgnoresTrailing` | src/lib.rs:114-122 | appending bytes after a decodable packet leaves the decoded result unchanged |
| `E131Properties.EncodedNameSlot` | src/lib.rs:71-77 | the name slot of an encoded packet holds a zero and reads back as the name |
| `E131Properties.RoundTrip` | src/lib.rs:37-179 | decoding the encoding of a round-trippable packet gives the packet back |
| `E131Properties.PrefixRejected` | src/lib.rs:37-179 | every strict prefix of an encoded packet decodes to None |
| `E131Properties.CorruptedIdentifierRejected` | src/lib.rs:47-54 | changing any identifier byte of an encoded packet makes it decode to None |
| `E131Properties.FullNameUnterminated` | src/lib.rs:71-77 | an encoded 64-byte name with no zero byte leaves the slot unterminated, so decoding it would panic |
| `E131Properties.NewPacket` | src/lib.rs:24-35 | `new` gives zero cid, empty name, priority 100, all other fields 0 and no values; it encodes to 125 bytes and decodes back to itself |

## Left out

- UTF-8: `String::from_utf8_lossy` is not modelled. The name is a byte sequence, and
  valid UTF-8 is taken to pass through unchanged. The round trip therefore assumes a
  name that is valid text: its bytes are kept as they are.
- E131.Decode and E131.Deserialize: require `NameTerminated`, which says the slot holds
  a zero byte whenever parsing reaches it. This stands for the panic of `unwrap` at
  src/lib.rs:77, which is not modelled as behaviour.
- E131.Serialize: requires `Encodable`: a name of at most 64 bytes, and length fields
  that do not overflow 16 bits. The index panic at src/lib.rs:147 and u16 overflow,
  whether it panics or wraps, are not modelled.
- The numeric value of `0x07_u16 << 24` is not modelled. The shift is wider than its
  16-bit operand. `LengthTag` (0x0700) is the value the shift gives when its amount
  is masked to the width. No claim is made about the E1.31 flag bits.
- `std::io::Cursor`, the byteorder traits and the `io::Error` values are replaced by a
  position index and big-endian encodings. Appending to a vector never fails, so
  the un-unwrapped `write_u32` at src/lib.rs:138 has no error path.
- The unused `LittleEndian` import is not modelled. Nothing in the codec validates
  length fields, vectors, DMP constants or a 512-value cap, so neither does the model.
