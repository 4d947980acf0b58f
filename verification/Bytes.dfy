/** Bytes, fixed-width unsigned integers and the little-endian codecs of the storage layer. */
module Bytes {
  type byte = b: int | 0 <= b < 0x100
  type u16 = x: int | 0 <= x < 0x1_0000
  type u32 = x: int | 0 <= x < 0x1_0000_0000

  function Min(a: nat, b: nat): nat {
    if a < b then a else b
  }

  function PutLe16(v: u16): (s: seq<byte>)
    ensures |s| == 2 && GetLe16(s) == v
  {
    [v % 0x100, v / 0x100]
  }

  function GetLe16(s: seq<byte>): (v: u16)
    requires |s| == 2
  {
    var lo: int, hi: int := s[0], s[1];
    lo + 0x100 * hi
  }

  function PutLe32(v: u32): (s: seq<byte>)
    ensures |s| == 4 && GetLe32(s) == v
  {
    PutLe16(v % 0x1_0000) + PutLe16(v / 0x1_0000)
  }

  function GetLe32(s: seq<byte>): (v: u32)
    requires |s| == 4
  {
    var lo: int, hi: int := GetLe16(s[..2]), GetLe16(s[2..]);
    lo + 0x1_0000 * hi
  }

  /** Decoding then encoding is the identity as well, so both codecs are bijections. */
  lemma PutGetLe16(s: seq<byte>)
    requires |s| == 2
    ensures PutLe16(GetLe16(s)) == s
  {
    var v: int := GetLe16(s);
    assert v % 0x100 == s[0] && v / 0x100 == s[1];
  }

  lemma PutGetLe32(s: seq<byte>)
    requires |s| == 4
    ensures PutLe32(GetLe32(s)) == s
  {
    var v: int := GetLe32(s);
    assert v % 0x1_0000 == GetLe16(s[..2]) && v / 0x1_0000 == GetLe16(s[2..]);
    PutGetLe16(s[..2]);
    PutGetLe16(s[2..]);
  }
}
