/** What the codec of src/lib.rs guarantees: where `serialize` puts every byte,
    what `deserialize` accepts and reads, and that the two are inverse on the
    packets `serialize` can write and `deserialize` can read back. */
module E131Properties {
  import opened Bytes
  import opened E131

  /** Packets that survive a round trip: writable, with a count that matches
      the values, and a name that leaves room for a terminating zero in the
      64-byte slot and has no zero byte of its own. */
  predicate RoundTrippable(p: Packet)
  {
    Encodable(p) && Consistent(p) && |p.sourceName| < 64 && 0 !in p.sourceName
  }

  // ---------------------------------------------------------------------------
  // The bytes `serialize` writes

  /** A slice of a slice is a slice of the whole. */
  lemma SliceOfSlice(s: seq<byte>, i: nat, j: nat, k: nat, l: nat)
    requires i <= j <= |s| && k <= l <= j - i
    ensures s[i..j][k..l] == s[i + k..i + l]
  {
    assert forall n :: 0 <= n < l - k ==> s[i..j][k..l][n] == s[i + k + n];
  }

  /** An encoded packet is its three layer headers, then the values. */
  lemma EncodeLayers(p: Packet)
    requires Encodable(p)
    ensures |RootLayer(p)| == 38 && |FramingLayer(p)| == 77 && |DmpLayer(p)| == 10
    ensures |Encode(p)| == HeaderLength + |p.values|
    ensures Encode(p)[..38] == RootLayer(p)
    ensures Encode(p)[38..115] == FramingLayer(p)
    ensures Encode(p)[115..HeaderLength] == DmpLayer(p)
    ensures Encode(p)[HeaderLength..] == p.values
  {
    var e := Encode(p);
    var r, f, d := RootLayer(p), FramingLayer(p), DmpLayer(p);
    assert |r| == 38 && |f| == 77 && |d| == 10;
    assert e == r + f + d + p.values;
    assert (r + f + d)[..38] == r;
    assert (r + f + d)[38..115] == f;
  }

  /** Where the root layer puts its bytes. */
  lemma RootLayout(p: Packet)
    requires Encodable(p)
    ensures var r := RootLayer(p);
      |r| == 38
      && r[0..2] == [0x00, 0x10] && r[2..4] == [0x00, 0x00] && r[4..16] == Header
      && r[16..18] == BE16(LengthTag + p.propertyValueCount + 109)
      && r[18..22] == [0x00, 0x00, 0x00, 0x04] && r[22..38] == p.cid
  {
    var sizes := BE16(0x0010) + BE16(0x0000);  // preamble size, post-amble size
    var ident := sizes + Header;
    assert ident[..4] == sizes == [0x00, 0x10, 0x00, 0x00];
    var tail := BE16(LengthField(p.propertyValueCount, 109)) + BE32(0x04);
    assert BE32(0x04) == [0x00, 0x00, 0x00, 0x04];
    assert RootLayer(p) == ident + tail + p.cid;
  }

  /** Where the framing layer puts its bytes (offsets from byte 38). */
  lemma FramingLayout(p: Packet)
    requires Encodable(p)
    ensures var f := FramingLayer(p);
      |f| == 77
      && f[0..2] == BE16(LengthTag + p.propertyValueCount + 87)
      && f[2..6] == [0x00, 0x00, 0x00, 0x02]
      && f[6..70] == NameSlot(p.sourceName)
      && f[70] == p.priority && f[71..73] == BE16(p.syncAddr)
      && f[73] == p.sequence && f[74] == p.options && f[75..77] == BE16(p.universe)
  {
    var head := BE16(LengthField(p.propertyValueCount, 87)) + BE32(0x02);
    assert BE32(0x02) == [0x00, 0x00, 0x00, 0x02];
    var named := head + NameSlot(p.sourceName);
    assert named[..6] == head;
    var fields := [p.priority] + BE16(p.syncAddr) + [p.sequence] + [p.options] + BE16(p.universe);
    assert FramingLayer(p) == named + fields by {
      assert FramingLayer(p) == named + [p.priority] + BE16(p.syncAddr) + [p.sequence] + [p.options] + BE16(p.universe);
    }
    assert fields[1..3] == BE16(p.syncAddr);
    assert fields[5..7] == BE16(p.universe);
  }

  /** Where the DMP layer puts its bytes (offsets from byte 115). */
  lemma DmpLayout(p: Packet)
    requires Encodable(p)
    ensures var d := DmpLayer(p);
      |d| == 10
      && d[0..2] == BE16(LengthTag + p.propertyValueCount + 10)
      && d[2..8] == [0x02, 0xa1, 0x00, 0x00, 0x00, 0x01]
      && d[8..10] == BE16(p.propertyValueCount)
  {
  }

  /** The constant bytes of every encoded packet, and its length: the 125-byte
      header plus one byte per value, whatever the count field says. */
  lemma EncodeConstants(p: Packet)
    requires Encodable(p)
    ensures |Encode(p)| == HeaderLength + |p.values|
    ensures Encode(p)[0..2] == [0x00, 0x10] && Encode(p)[2..4] == [0x00, 0x00]
    ensures Encode(p)[4..16] == Header
    ensures Encode(p)[18..22] == [0x00, 0x00, 0x00, 0x04]
    ensures Encode(p)[40..44] == [0x00, 0x00, 0x00, 0x02]
    ensures Encode(p)[117..123] == [0x02, 0xa1, 0x00, 0x00, 0x00, 0x01]
  {
    var e := Encode(p);
    EncodeLayers(p);
    RootLayout(p);
    FramingLayout(p);
    DmpLayout(p);
    SliceOfSlice(e, 0, 38, 0, 2);
    SliceOfSlice(e, 0, 38, 2, 4);
    SliceOfSlice(e, 0, 38, 4, 16);
    SliceOfSlice(e, 0, 38, 18, 22);
    SliceOfSlice(e, 38, 115, 2, 6);
    SliceOfSlice(e, 115, 125, 2, 8);
  }

  /** The three length fields hold the tag plus the count plus the size of what
      follows in the packet, less the count itself. */
  lemma EncodeLengthFields(p: Packet)
    requires Encodable(p)
    ensures |Encode(p)| >= HeaderLength
    ensures Encode(p)[16..18] == BE16(LengthTag + p.propertyValueCount + 109)
    ensures Encode(p)[38..40] == BE16(LengthTag + p.propertyValueCount + 87)
    ensures Encode(p)[115..117] == BE16(LengthTag + p.propertyValueCount + 10)
  {
    var e := Encode(p);
    EncodeLayers(p);
    RootLayout(p);
    FramingLayout(p);
    DmpLayout(p);
    SliceOfSlice(e, 0, 38, 16, 18);
    SliceOfSlice(e, 38, 115, 0, 2);
    SliceOfSlice(e, 115, 125, 0, 2);
  }

  /** Every field of the packet at its fixed offset. */
  lemma EncodeFields(p: Packet)
    requires Encodable(p)
    ensures |Encode(p)| >= HeaderLength
    ensures Encode(p)[22..38] == p.cid
    ensures Encode(p)[44..108] == p.sourceName + Zeros(64 - |p.sourceName|)
    ensures Encode(p)[108] == p.priority
    ensures Encode(p)[109..111] == BE16(p.syncAddr)
    ensures Encode(p)[111] == p.sequence
    ensures Encode(p)[112] == p.options
    ensures Encode(p)[113..115] == BE16(p.universe)
    ensures Encode(p)[123..125] == BE16(p.propertyValueCount)
    ensures Encode(p)[HeaderLength..] == p.values
  {
    var e := Encode(p);
    EncodeLayers(p);
    RootLayout(p);
    FramingLayout(p);
    DmpLayout(p);
    SliceOfSlice(e, 0, 38, 22, 38);
    SliceOfSlice(e, 38, 115, 6, 70);
    SliceOfSlice(e, 38, 115, 71, 73);
    SliceOfSlice(e, 38, 115, 75, 77);
    SliceOfSlice(e, 115, 125, 8, 10);
  }

  // ---------------------------------------------------------------------------
  // What `deserialize` accepts and reads

  /** Decoding succeeds exactly when the identifier matches and the buffer holds
      the fixed part and as many values as its count field announces. */
  lemma DecodeSucceedsIff(data: seq<byte>)
    requires NameTerminated(data)
    ensures Decode(data).Some? <==>
      |data| >= HeaderLength && data[4..16] == Header && |data| >= HeaderLength + CountAt(data)
  {
  }

  /** A buffer whose identifier differs from `Header` is refused. */
  lemma DecodeRejectsForeignIdentifier(data: seq<byte>)
    requires |data| >= 16 && data[4..16] != Header
    ensures NameTerminated(data) && Decode(data) == None
  {
  }

  /** Where a decoded packet comes from: each field is the bytes at its offset,
      the name is the slot up to its first zero byte, and the values are the
      `count` bytes after the header. */
  lemma DecodeFields(data: seq<byte>)
    requires NameTerminated(data) && Decode(data).Some?
    ensures var q := Decode(data).value;
      |data| >= HeaderLength + |q.values|
      && q.cid == data[22..38]
      && q.sourceName <= data[44..108] && 0 !in q.sourceName && data[44 + |q.sourceName|] == 0
      && q.priority == data[108]
      && BE16(q.syncAddr) == data[109..111]
      && q.sequence == data[111]
      && q.options == data[112]
      && BE16(q.universe) == data[113..115]
      && BE16(q.propertyValueCount) == data[123..125]
      && q.values == data[HeaderLength..HeaderLength + q.propertyValueCount]
  {
    var q := Decode(data).value;
    assert data[44..108][|q.sourceName|] == data[44 + |q.sourceName|];
  }

  /** The bytes the decoder skips: the preamble and post-amble sizes, root length and vector,
      framing length and vector, DMP length and header, and whatever follows
      the announced values. */
  predicate Ignored(data: seq<byte>, i: nat)
  {
    i < |data| &&
    (i < 4 || 16 <= i < 22 || 38 <= i < 44 || 115 <= i < 123
     || (|data| >= HeaderLength && i >= HeaderLength + CountAt(data)))
  }

  /** Changing a skipped byte does not change what is decoded. */
  lemma DecodeIgnoresSkipped(data: seq<byte>, i: nat, b: byte)
    requires NameTerminated(data) && Ignored(data, i)
    ensures NameTerminated(data[i := b])
    ensures Decode(data[i := b]) == Decode(data)
  {
    var d := data[i := b];
    if |data| >= 16 {
      assert d[4..16] == data[4..16];
    }
    if |data| >= 108 {
      assert d[44..108] == data[44..108];
    }
    if |data| >= HeaderLength {
      assert d[22..38] == data[22..38];
      assert CountAt(d) == CountAt(data);
      if |data| >= HeaderLength + CountAt(data) {
        assert d[HeaderLength..HeaderLength + CountAt(data)] == data[HeaderLength..HeaderLength + CountAt(data)];
      }
    }
  }

  /** Bytes after a complete packet are not read. */
  lemma DecodeIgnoresTrailing(data: seq<byte>, extra: seq<byte>)
    requires NameTerminated(data) && Decode(data).Some?
    ensures NameTerminated(data + extra)
    ensures Decode(data + extra) == Decode(data)
  {
    var d := data + extra;
    assert d[4..16] == data[4..16];
    assert d[22..38] == data[22..38];
    assert d[44..108] == data[44..108];
    assert d[HeaderLength..HeaderLength + CountAt(data)] == data[HeaderLength..HeaderLength + CountAt(data)];
  }

  // ---------------------------------------------------------------------------
  // Round trip

  /** The name slot of an encoded round-trippable packet ends in a zero byte and
      gives the name back. */
  lemma EncodedNameSlot(p: Packet)
    requires RoundTrippable(p)
    ensures |Encode(p)| >= HeaderLength
    ensures 0 in Encode(p)[44..108]
    ensures BeforeNul(Encode(p)[44..108]) == p.sourceName
  {
    EncodeFields(p);
    BeforeNulOfPadded(p.sourceName, 64 - |p.sourceName|);
  }

  /** `deserialize(serialize(p))` gives `p` back, field for field. */
  lemma RoundTrip(p: Packet)
    requires RoundTrippable(p)
    ensures NameTerminated(Encode(p))
    ensures Decode(Encode(p)) == Some(p)
  {
    var e := Encode(p);
    var count := p.propertyValueCount;
    assert |e| == HeaderLength + count && e[4..16] == Header by {
      EncodeConstants(p);
    }
    assert 0 in e[44..108] && BeforeNul(e[44..108]) == p.sourceName by {
      EncodedNameSlot(p);
    }
    assert e[22..38] == p.cid && e[108] == p.priority && e[111] == p.sequence && e[112] == p.options
      && FromBE16(e[109], e[110]) == p.syncAddr && FromBE16(e[113], e[114]) == p.universe
      && CountAt(e) == count && e[HeaderLength..HeaderLength + count] == p.values
    by {
      EncodeFields(p);
      assert e[109..111] == [e[109], e[110]];
      assert e[113..115] == [e[113], e[114]];
      assert e[123..125] == [e[123], e[124]];
      assert e[HeaderLength..] == e[HeaderLength..HeaderLength + count];
    }
  }

  /** No strict prefix of an encoded packet decodes: a truncated datagram is
      refused rather than read as a shorter packet. */
  lemma PrefixRejected(p: Packet, k: nat)
    requires RoundTrippable(p) && k < |Encode(p)|
    ensures NameTerminated(Encode(p)[..k])
    ensures Decode(Encode(p)[..k]) == None
  {
    var e := Encode(p);
    var d := e[..k];
    var count := p.propertyValueCount;
    assert |e| == HeaderLength + count && e[4..16] == Header by {
      EncodeConstants(p);
    }
    assert 0 in e[44..108] by {
      EncodedNameSlot(p);
    }
    assert CountAt(e) == count by {
      EncodeFields(p);
      assert e[123..125] == [e[123], e[124]];
    }
    if k >= 108 {
      assert d[4..16] == e[4..16];
      assert d[44..108] == e[44..108];
    }
    if k >= HeaderLength {
      assert CountAt(d) == CountAt(e);
    }
  }

  /** Changing any byte of the identifier of an encoded packet makes it undecodable. */
  lemma CorruptedIdentifierRejected(p: Packet, i: nat, b: byte)
    requires Encodable(p) && 4 <= i < 16 && b != Encode(p)[i]
    ensures NameTerminated(Encode(p)[i := b])
    ensures Decode(Encode(p)[i := b]) == None
  {
    var e := Encode(p);
    var d := e[i := b];
    EncodeConstants(p);
    assert d[4..16][i - 4] != Header[i - 4];
  }

  /** A 64-byte name leaves no terminating zero in the slot, so decoding what
      `serialize` wrote would hit the unwrap on the missing nul. */
  lemma FullNameUnterminated(p: Packet)
    requires Encodable(p) && |p.sourceName| == 64 && 0 !in p.sourceName
    ensures !NameTerminated(Encode(p))
  {
    EncodeConstants(p);
    EncodeFields(p);
    assert Encode(p)[44..108] == p.sourceName;
  }

  /** The packet `new` builds has the stated defaults, encodes to the bare
      125-byte header and decodes back to itself. */
  lemma NewPacket()
    ensures New().cid == Zeros(16) && New().sourceName == []
    ensures New().priority == 100
    ensures New().syncAddr == 0 && New().sequence == 0 && New().options == 0
    ensures New().universe == 0 && New().propertyValueCount == 0 && New().values == []
    ensures RoundTrippable(New())
    ensures |Encode(New())| == HeaderLength
    ensures NameTerminated(Encode(New())) && Decode(Encode(New())) == Some(New())
  {
    RoundTrip(New());
  }
}
