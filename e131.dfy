/** The E1.31 (streaming ACN) data packet of src/lib.rs and its binary codec.

    The layout is the data packet of ANSI E1.31-2018 section 4 as this codec
    writes and reads it (every offset from the start of the buffer):

      0..1    preamble size 00 10             (skipped on decode)
      2..3    post-amble size 00 00           (skipped on decode)
      4..15   packet identifier `Header`      (must match on decode)
      16..17  root length field               (skipped on decode)
      18..21  root vector 00 00 00 04         (skipped on decode)
      22..37  cid
      38..39  framing length field            (skipped on decode)
      40..43  framing vector 00 00 00 02      (skipped on decode)
      44..107 source name, zero padded to 64 bytes
      108     priority
      109..110 sync address, big-endian
      111     sequence number
      112     options
      113..114 universe, big-endian
      115..116 DMP length field               (skipped on decode)
      117..122 DMP header 02 A1 00 00 00 01   (skipped on decode)
      123..124 property value count, big-endian
      125..   property values

    `Decode` and `Encode` state the layout as functions; `Deserialize` and
    `Serialize` are the cursor-driven procedures of the source, proved to
    compute them. */
module E131 {
  import opened Bytes

  datatype Option<T> = None | Some(value: T)

  /** The packet identifier: "ASC-E1.17" followed by three zero bytes. */
  const Header: seq<byte> := [0x41, 0x53, 0x43, 0x2d, 0x45, 0x31, 0x2e, 0x31, 0x37, 0x00, 0x00, 0x00]

  /** `Header` is the ASCII text "ASC-E1.17" padded with zeros to 12 bytes. */
  lemma HeaderSpellsIdentifier()
    ensures |Header| == 12
    ensures forall i :: 0 <= i < 9 ==> Header[i] == "ASC-E1.17"[i] as int
    ensures Header[9..] == Zeros(3)
  {
  }

  /** The fixed part of a packet, before the property values. */
  const HeaderLength: nat := 125

  /** The tag added to the three length fields. The source writes it as
      `0x07_u16 << 24`, a shift wider than the 16-bit operand; this is the
      value that shift has when the amount is masked to the width (24 mod 16
      is 8). No claim is made that it gives the flags nibble of E1.31. */
  const LengthTag: nat := 0x0700

  /** A component identifier is exactly 16 bytes. */
  type Cid = s: seq<byte> | |s| == 16 witness Zeros(16)

  datatype Packet = Packet(
    cid: Cid,
    sourceName: seq<byte>,
    priority: byte,
    syncAddr: u16,
    sequence: byte,
    options: byte,
    universe: u16,
    propertyValueCount: u16,
    values: seq<byte>)

  /** The packet `e1_31_pkt::new` builds, which decoding starts from: a zero
      cid, an empty name, priority 100, every other field zero, no values. */
  function New(): (p: Packet)
    ensures p.cid == Zeros(16) && p.sourceName == [] && p.priority == 100
    ensures p.syncAddr == 0 && p.sequence == 0 && p.options == 0 && p.universe == 0
    ensures p.propertyValueCount == 0 && p.values == [] && Consistent(p)
  {
    Packet(Zeros(16), [], 100, 0, 0, 0, 0, 0, [])
  }

  /** The count field agrees with the values actually carried. */
  predicate Consistent(p: Packet)
  {
    p.propertyValueCount as int == |p.values|
  }

  // ---------------------------------------------------------------------------
  // Encoding

  /** The three length fields are u16 additions; this says none of them overflows. */
  predicate LengthFieldsFit(count: u16)
  {
    LengthTag + count + 109 < 0x1_0000
  }

  /** What `serialize` can write without panicking: a name that fits the 64-byte
      slot (for a 65th byte the copy attempts to write index 64, which fails the
      bounds check) and length fields that fit in 16 bits. */
  predicate Encodable(p: Packet)
  {
    |p.sourceName| <= 64 && LengthFieldsFit(p.propertyValueCount)
  }

  /** A length field: the tag, the value count and a fixed per-layer overhead. */
  function LengthField(count: u16, overhead: nat): u16
    requires LengthTag + count + overhead < 0x1_0000
  {
    LengthTag + count + overhead
  }

  /** The 64-byte source name slot: the name, then zeros. */
  function NameSlot(name: seq<byte>): seq<byte>
    requires |name| <= 64
  {
    name + Zeros(64 - |name|)
  }

  /** The bytes `serialize` produces for `p`: the root, framing and DMP layer
      headers, then the values. */
  function Encode(p: Packet): (r: seq<byte>)
    requires Encodable(p)
    ensures |r| == HeaderLength + |p.values|
    ensures r[4..16] == Header && r[HeaderLength..] == p.values
  {
    RootLayer(p) + FramingLayer(p) + DmpLayer(p) + p.values
  }

  /** Bytes 0..37: preamble size, post-amble size, packet identifier, root
      length and vector, cid. */
  function RootLayer(p: Packet): (r: seq<byte>)
    requires Encodable(p)
    ensures |r| == 38 && r[4..16] == Header && r[22..38] == p.cid
  {
    BE16(0x0010) + BE16(0x0000) + Header
    + BE16(LengthField(p.propertyValueCount, 109)) + BE32(0x04) + p.cid
  }

  /** Bytes 38..114: framing length and vector, source name slot, priority,
      sync address, sequence number, options and universe. */
  function FramingLayer(p: Packet): (r: seq<byte>)
    requires Encodable(p)
    ensures |r| == 77 && r[6..70] == NameSlot(p.sourceName)
  {
    BE16(LengthField(p.propertyValueCount, 87)) + BE32(0x02)
    + NameSlot(p.sourceName)
    + [p.priority] + BE16(p.syncAddr) + [p.sequence] + [p.options] + BE16(p.universe)
  }

  /** Bytes 115..124: DMP length, the fixed DMP header and the value count. */
  function DmpLayer(p: Packet): (r: seq<byte>)
    requires Encodable(p)
    ensures |r| == 10 && r[8..10] == BE16(p.propertyValueCount)
  {
    BE16(LengthField(p.propertyValueCount, 10))
    + [0x02] + [0xa1] + BE16(0x00) + BE16(0x01)
    + BE16(p.propertyValueCount)
  }

  /** The name-slot copy of `serialize`: a zeroed 64-byte buffer receives the
      name byte by byte, with the source's belated `index > 64` check kept as
      written (it can never stop a copy that fits). */
  method CopyName(sourceBytes: seq<byte>) returns (slot: seq<byte>)
    requires |sourceBytes| <= 64
    ensures slot == NameSlot(sourceBytes)
  {
    var sourceArray := new byte[64](_ => 0);
    var index := 0;
    while index < |sourceBytes|
      invariant 0 <= index <= |sourceBytes|
      invariant sourceArray[..] == sourceBytes[..index] + Zeros(64 - index)
    {
      sourceArray[index] := sourceBytes[index];
      index := index + 1;
      if index > 64 {
        break;
      }
    }
    assert sourceBytes[..index] == sourceBytes;
    slot := sourceArray[..];
  }

  /** The sequential writer of `serialize`: the fixed fields are appended one by
      one, the name is copied into a zeroed 64-byte buffer, and every value is
      appended, whatever the count field says. */
  method Serialize(p: Packet) returns (data: seq<byte>)
    requires Encodable(p)
    ensures data == Encode(p)
  {
    var count := p.propertyValueCount;
    data := BE16(0x0010);
    data := data + BE16(0x0000);
    data := data + Header;
    data := data + BE16(LengthField(count, 109));
    data := data + BE32(0x04);
    data := data + p.cid;
    assert data == RootLayer(p);
    ghost var root := data;
    data := data + BE16(LengthField(count, 87));
    data := data + BE32(0x02);

    var sourceArray := CopyName(p.sourceName);
    data := data + sourceArray;

    data := data + [p.priority];
    data := data + BE16(p.syncAddr);
    data := data + [p.sequence];
    data := data + [p.options];
    data := data + BE16(p.universe);
    assert data == root + FramingLayer(p);
    ghost var framed := data;
    data := data + BE16(LengthField(count, 10));
    data := data + [0x02];
    data := data + [0xa1];
    data := data + BE16(0x00);
    data := data + BE16(0x01);
    data := data + BE16(count);
    assert data == framed + DmpLayer(p);
    ghost var fixed := data;
    var i := 0;
    while i < |p.values|
      invariant 0 <= i <= |p.values|
      invariant data == fixed + p.values[..i]
    {
      data := data + [p.values[i]];
      i := i + 1;
    }
    assert p.values[..i] == p.values;
  }

  // ---------------------------------------------------------------------------
  // Decoding

  /** The count field of a buffer holding at least the fixed part. */
  function CountAt(data: seq<byte>): u16
    requires |data| >= HeaderLength
  {
    FromBE16(data[123], data[124])
  }

  /** `deserialize` proceeds to the name slot only when the buffer holds it and
      the identifier matched; there it unwraps the search for a zero byte, so
      it panics unless the slot holds one. This is what makes the call safe. */
  predicate NameTerminated(data: seq<byte>)
  {
    |data| >= 108 && data[4..16] == Header ==> 0 in data[44..108]
  }

  /** The packet `deserialize` reads from `data`, or None: the buffer must carry
      the identifier at 4..15 and be long enough for the fixed part and for the
      number of values its count field announces; everything else that the
      decoder skips is not looked at. */
  function Decode(data: seq<byte>): (r: Option<Packet>)
    requires NameTerminated(data)
    ensures r.Some? ==> Consistent(r.value)
  {
    if |data| < HeaderLength || data[4..16] != Header then None
    else
      var count := CountAt(data);
      if |data| < HeaderLength + count then None
      else
        Some(Packet(
          data[22..38],
          BeforeNul(data[44..108]),
          data[108],
          FromBE16(data[109], data[110]),
          data[111],
          data[112],
          FromBE16(data[113], data[114]),
          count,
          data[HeaderLength..HeaderLength + count]))
  }

  /** The cursor walk of `deserialize`: `pos` is the cursor position, every read
      first checks that enough bytes remain (a short read gives None), and the
      fields of a packet that starts as `New()` are filled in turn. */
  method Deserialize(data: seq<byte>) returns (r: Option<Packet>)
    requires NameTerminated(data)
    ensures r == Decode(data)
  {
    var rv := New();
    var pos := 0;

    if |data| < pos + 4 { return None; }
    pos := pos + 4;

    if |data| < pos + 12 { return None; }
    var ident := data[pos..pos + 12];
    pos := pos + 12;
    if ident != Header { return None; }

    if |data| < pos + 6 { return None; }
    pos := pos + 6;

    if |data| < pos + 16 { return None; }
    rv := rv.(cid := data[pos..pos + 16]);
    pos := pos + 16;

    if |data| < pos + 6 { return None; }
    pos := pos + 6;

    if |data| < pos + 64 { return None; }
    var nameSlot := data[pos..pos + 64];
    pos := pos + 64;
    rv := rv.(sourceName := BeforeNul(nameSlot));

    if |data| < pos + 1 { return None; }
    rv := rv.(priority := data[pos]);
    pos := pos + 1;

    if |data| < pos + 2 { return None; }
    rv := rv.(syncAddr := FromBE16(data[pos], data[pos + 1]));
    pos := pos + 2;

    if |data| < pos + 1 { return None; }
    rv := rv.(sequence := data[pos]);
    pos := pos + 1;

    if |data| < pos + 1 { return None; }
    rv := rv.(options := data[pos]);
    pos := pos + 1;

    if |data| < pos + 2 { return None; }
    rv := rv.(universe := FromBE16(data[pos], data[pos + 1]));
    pos := pos + 2;

    if |data| < pos + 8 { return None; }
    pos := pos + 8;

    if |data| < pos + 2 { return None; }
    rv := rv.(propertyValueCount := FromBE16(data[pos], data[pos + 1]));
    pos := pos + 2;

    ghost var fixed := rv;
    var i := 0;
    while i < rv.propertyValueCount
      invariant 0 <= i <= fixed.propertyValueCount
      invariant pos == HeaderLength + i <= |data|
      invariant rv == fixed.(values := data[HeaderLength..pos])
    {
      if |data| < pos + 1 { return None; }
      rv := rv.(values := rv.values + [data[pos]]);
      pos := pos + 1;
      i := i + 1;
    }
    return Some(rv);
  }
}
