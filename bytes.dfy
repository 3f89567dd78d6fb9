/** Byte-level vocabulary of the codec: unsigned integer widths, the big-endian
    encodings that the byteorder crate provides, zero padding and the
    nul-terminated prefix of a byte slot. */
module Bytes {

  type byte = x: int | 0 <= x < 0x100
  type u16 = x: int | 0 <= x < 0x1_0000
  type u32 = x: int | 0 <= x < 0x1_0000_0000

  /** Two bytes, most significant first (`write_u16::<BigEndian>`). */
  function BE16(x: u16): (r: seq<byte>)
    ensures |r| == 2 && r[0] as int * 0x100 + r[1] == x
  {
    [x / 0x100, x % 0x100]
  }

  /** The value of two big-endian bytes (`read_u16::<BigEndian>`); it undoes BE16. */
  function FromBE16(hi: byte, lo: byte): (x: u16)
    ensures BE16(x) == [hi, lo]
  {
    hi as int * 0x100 + lo
  }

  /** Four bytes, most significant first (`write_u32::<BigEndian>`): the high
      half then the low half. */
  function BE32(x: u32): (r: seq<byte>)
    ensures |r| == 4
    ensures (r[0] as int * 0x100 + r[1]) * 0x1_0000 + (r[2] as int * 0x100 + r[3]) == x
  {
    BE16(x / 0x1_0000) + BE16(x % 0x1_0000)
  }

  /** `n` zero bytes, as in a zero-initialised buffer. */
  function Zeros(n: nat): (r: seq<byte>)
    ensures |r| == n && forall i :: 0 <= i < n ==> r[i] == 0
  {
    seq(n, _ => 0)
  }

  /** The bytes of `s` before its first zero byte (`CStr::from_bytes_until_nul`):
      a prefix of `s` with no zero in it, followed in `s` by a zero. */
  function BeforeNul(s: seq<byte>): (r: seq<byte>)
    requires 0 in s
    ensures r <= s && 0 !in r && |r| < |s| && s[|r|] == 0
  {
    if s[0] == 0 then [] else [s[0]] + BeforeNul(s[1..])
  }

  /** The prefix before the first nul of a name followed by zero padding is the name. */
  lemma BeforeNulOfPadded(name: seq<byte>, n: nat)
    requires 0 !in name && 0 < n
    ensures 0 in name + Zeros(n)
    ensures BeforeNul(name + Zeros(n)) == name
  {
    var s := name + Zeros(n);
    assert s[|name|] == 0;
    var r := BeforeNul(s);
    assert r == s[..|r|];
    assert |r| == |name|;
    assert s[..|name|] == name;
  }
}
