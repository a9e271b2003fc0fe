/** Bytes as characters below 256, little-endian numbers, and the smaller of two counts. */
module Bytes {
  type Byte = c: char | c as int < 0x100 witness '0'
  type ByteString = seq<Byte>
  type U16 = v: int | 0 <= v < 0x1_0000
  type U32 = v: int | 0 <= v < 0x1_0000_0000

  function Min(a: nat, b: nat): nat {
    if a <= b then a else b
  }

  /** `static_cast<uint8_t>`. */
  function Low(v: nat): Byte {
    (v % 0x100) as char
  }

  function PutU16(v: U16): (r: ByteString)
    ensures |r| == 2
  {
    [Low(v), Low(v / 0x100)]
  }

  function PutU32(v: U32): (r: ByteString)
    ensures |r| == 4
  {
    [Low(v), Low(v / 0x100), Low(v / 0x1_0000), Low(v / 0x100_0000)]
  }

  function GetU16(s: ByteString): U16
    requires |s| == 2
  {
    s[0] as int + 0x100 * s[1] as int
  }

  function GetU32(s: ByteString): U32
    requires |s| == 4
  {
    s[0] as int + 0x100 * s[1] as int + 0x1_0000 * s[2] as int + 0x100_0000 * s[3] as int
  }

  /** The two halves undo each other, on every number and on every four bytes. */
  lemma {:induction false} U32RoundTrip(v: U32, s: ByteString)
    requires |s| == 4
    ensures GetU32(PutU32(v)) == v && PutU32(GetU32(s)) == s
  {
    U32Written(s);
    U32Read(v);
  }

  lemma {:induction false} U32Written(s: ByteString)
    requires |s| == 4
    ensures PutU32(GetU32(s)) == s
  {
    var a, b, c, d := s[0] as int, s[1] as int, s[2] as int, s[3] as int;
    var w := GetU32(s);
    assert w / 0x100 == b + 0x100 * c + 0x1_0000 * d;
    assert w / 0x1_0000 == c + 0x100 * d;
    assert w / 0x100_0000 == d;
  }

  lemma {:induction false} U32Read(v: U32)
    ensures GetU32(PutU32(v)) == v
  {
    assert v / 0x1_0000 == v / 0x100 / 0x100;
    assert v / 0x100_0000 == v / 0x100 / 0x100 / 0x100;
  }

  lemma {:induction false} U16RoundTrip(v: U16, s: ByteString)
    requires |s| == 2
    ensures GetU16(PutU16(v)) == v && PutU16(GetU16(s)) == s
  {
    var w := GetU16(s);
    assert w / 0x100 == s[1] as int;
  }

  /** The digits: the lowest byte first. */
  lemma {:induction false} LittleEndian32(v: U32)
    ensures var r := PutU32(v);
            r[0] as int + 256 * r[1] as int + 65536 * r[2] as int + 16777216 * r[3] as int == v
  {
    U32Read(v);
  }

  lemma {:induction false} LittleEndian16(v: U16)
    ensures PutU16(v)[0] as int + 256 * PutU16(v)[1] as int == v
  {
  }
}
