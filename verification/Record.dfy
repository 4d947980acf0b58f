/**
 * The versioned, CRC-protected record of the storage service: a 12-byte little-endian header
 * (magic, version, payload length, CRC) followed by the payload. The CRC is an arbitrary function
 * of the first eight header bytes and the payload.
 */
module Record {
  import opened Errors
  import opened Bytes

  const HEADER_SIZE := 12
  const MAGIC: u32 := 0x31525a52

  type Crc = (seq<byte>, seq<byte>) -> u32

  datatype Decoded = Accepted(version: u16, payload: seq<byte>) | Rejected(rc: int)

  /** Bounds of the Kconfig option RZI_STORAGE_RECORD_MAX_SIZE. */
  predicate ValidMax(max: nat) {
    16 <= max <= 2048
  }

  function Head(version: u16, size: u16): (s: seq<byte>)
    ensures |s| == 8
  {
    PutLe32(MAGIC) + PutLe16(version) + PutLe16(size)
  }

  function Encode(crc: Crc, version: u16, payload: seq<byte>): (s: seq<byte>)
    requires |payload| < 0x1_0000
    ensures |s| == HEADER_SIZE + |payload|
  {
    var head := Head(version, |payload|);
    head + PutLe32(crc(head, payload)) + payload
  }

  /** The layout byte by byte: "RZR1", then version and length little-endian, the CRC, and the payload at byte 12. */
  lemma EncodingLayout(crc: Crc, version: u16, payload: seq<byte>)
    requires |payload| < 0x1_0000
    ensures var s := Encode(crc, version, payload);
            && s[..4] == [0x52, 0x5a, 0x52, 0x31] && s[12..] == payload
            && s[4] as int + 0x100 * s[5] as int == version && s[6] as int + 0x100 * s[7] as int == |payload|
            && s[8..12] == PutLe32(crc(s[..8], payload))
  {
    var s, head := Encode(crc, version, payload), Head(version, |payload|);
    assert s[..8] == head && s[..4] == head[..4] == PutLe32(MAGIC);
    assert [s[4], s[5]] == head[4..6] == PutLe16(version) && [s[6], s[7]] == head[6..8] == PutLe16(|payload|);
    assert PutLe32(MAGIC) == PutLe16(0x5a52) + PutLe16(0x3152);
  }

  /** What the reader makes of one stored value, for a caller whose buffer holds `capacity` bytes. */
  function Decode(crc: Crc, max: nat, capacity: nat, stored: seq<byte>): Decoded {
    if |stored| > HEADER_SIZE + max then Rejected(ERR_TOO_LARGE)
    else if |stored| == 0 then Rejected(ERR_NOT_FOUND)
    else if |stored| <= HEADER_SIZE || GetLe32(stored[..4]) != MAGIC || GetLe16(stored[4..6]) == 0 then
      Rejected(ERR_BAD_MESSAGE)
    else
      var size := GetLe16(stored[6..8]);
      if size != |stored| - HEADER_SIZE || GetLe32(stored[8..12]) != crc(stored[..8], stored[12..]) then
        Rejected(ERR_BAD_MESSAGE)
      else if size > capacity then Rejected(ERR_TOO_LARGE)
      else Accepted(GetLe16(stored[4..6]), stored[12..])
  }

  ghost predicate IsEncodingOf(crc: Crc, max: nat, stored: seq<byte>, version: u16, payload: seq<byte>)
    requires ValidMax(max)
  {
    0 < version && 0 < |payload| <= max && stored == Encode(crc, version, payload)
  }

  ghost predicate IsEncoding(crc: Crc, max: nat, stored: seq<byte>)
    requires ValidMax(max)
  {
    exists version: u16, payload: seq<byte> :: IsEncodingOf(crc, max, stored, version, payload)
  }

  /** Reading back what was written yields the same version and payload. */
  lemma DecodeEncode(crc: Crc, max: nat, capacity: nat, version: u16, payload: seq<byte>)
    requires ValidMax(max) && 0 < version && 0 < |payload| <= max
    ensures Decode(crc, max, capacity, Encode(crc, version, payload))
         == if |payload| <= capacity then Accepted(version, payload) else Rejected(ERR_TOO_LARGE)
  {
    var s := Encode(crc, version, payload);
    var head := Head(version, |payload|);
    assert s[..8] == head && s[8..12] == PutLe32(crc(head, payload)) && s[12..] == payload;
    assert s[..4] == PutLe32(MAGIC) && s[4..6] == PutLe16(version) && s[6..8] == PutLe16(|payload|);
  }

  /** Nothing but an encoding gets past the format checks. */
  lemma WellFormedIsEncoding(crc: Crc, max: nat, stored: seq<byte>)
    requires ValidMax(max)
    requires HEADER_SIZE < |stored| <= HEADER_SIZE + max
    requires GetLe32(stored[..4]) == MAGIC && GetLe16(stored[4..6]) != 0
    requires GetLe16(stored[6..8]) == |stored| - HEADER_SIZE
    requires GetLe32(stored[8..12]) == crc(stored[..8], stored[12..])
    ensures IsEncodingOf(crc, max, stored, GetLe16(stored[4..6]), stored[12..])
  {
    var payload, version := stored[12..], GetLe16(stored[4..6]);
    var head := Head(version, |payload|);
    PutGetLe32(stored[..4]);
    PutGetLe16(stored[4..6]);
    PutGetLe16(stored[6..8]);
    assert stored[..8] == stored[..4] + stored[4..6] + stored[6..8];
    PutGetLe32(stored[8..12]);
    assert stored == stored[..8] + stored[8..12] + stored[12..];
  }

  /**
   * The codec is a bijection: a stored value is accepted exactly when it encodes some version and
   * payload that fit, and then it encodes no other pair. Each refusal has exactly one meaning.
   */
  lemma DecodeCharacterised(crc: Crc, max: nat, capacity: nat, stored: seq<byte>)
    requires ValidMax(max)
    ensures forall version: u16, payload: seq<byte> ::
              Decode(crc, max, capacity, stored) == Accepted(version, payload)
              <==> IsEncodingOf(crc, max, stored, version, payload) && |payload| <= capacity
    ensures Decode(crc, max, capacity, stored) == Rejected(ERR_NOT_FOUND) <==> stored == []
    ensures Decode(crc, max, capacity, stored) == Rejected(ERR_TOO_LARGE)
            <==> |stored| > HEADER_SIZE + max
                 || (IsEncoding(crc, max, stored) && |stored| > HEADER_SIZE + capacity)
    ensures Decode(crc, max, capacity, stored) == Rejected(ERR_BAD_MESSAGE)
            <==> stored != [] && |stored| <= HEADER_SIZE + max && !IsEncoding(crc, max, stored)
  {
    forall version: u16, payload: seq<byte> | IsEncodingOf(crc, max, stored, version, payload)
      ensures Decode(crc, max, capacity, stored)
           == if |payload| <= capacity then Accepted(version, payload) else Rejected(ERR_TOO_LARGE)
    {
      DecodeEncode(crc, max, capacity, version, payload);
    }
    if HEADER_SIZE < |stored| <= HEADER_SIZE + max
       && GetLe32(stored[..4]) == MAGIC && GetLe16(stored[4..6]) != 0
       && GetLe16(stored[6..8]) == |stored| - HEADER_SIZE
       && GetLe32(stored[8..12]) == crc(stored[..8], stored[12..])
    {
      WellFormedIsEncoding(crc, max, stored);
    }
  }

  method PutBytes(record: array<byte>, offset: nat, data: seq<byte>)
    requires offset + |data| <= record.Length
    modifies record
    ensures record[offset..offset + |data|] == data
    ensures record[..offset] == old(record[..offset])
    ensures record[offset + |data|..] == old(record[offset + |data|..])
  {
    for i := 0 to |data|
      invariant record[..offset] == old(record[..offset])
      invariant record[offset..offset + i] == data[..i]
      invariant record[offset + i..] == old(record[offset + i..])
    {
      record[offset + i] := data[i];
    }
  }

  method FillHead(record: array<byte>, version: u16, size: u16)
    requires 8 <= record.Length
    modifies record
    ensures record[..8] == Head(version, size)
    ensures record[8..] == old(record[8..])
  {
    ghost var rest := record[8..];
    PutBytes(record, 0, PutLe32(MAGIC));
    assert record[8..] == record[4..][4..] == rest;
    PutBytes(record, 4, PutLe16(version));
    assert record[8..] == record[6..][2..] == rest;
    assert record[..6] == record[..4] + record[4..6];
    PutBytes(record, 6, PutLe16(size));
    assert record[..8] == record[..6] + record[6..8];
  }

  lemma DropThenTake(s: seq<byte>, i: nat, j: nat)
    requires i <= j <= |s|
    ensures s[i..][..j - i] == s[i..j]
  {
  }

  lemma ThreeParts(s: seq<byte>, i: nat, j: nat, k: nat)
    requires i <= j <= k <= |s|
    ensures s[..k] == s[..i] + s[i..j] + s[j..k]
  {
  }

  /** Fills the scratch buffer of a record write at its fixed offsets and returns the stored bytes. */
  method BuildRecord(crc: Crc, max: nat, version: u16, value: seq<byte>) returns (rc: int, stored: seq<byte>)
    requires ValidMax(max)
    ensures rc == if version == 0 || |value| == 0 then ERR_INVALID
                  else if |value| > max then ERR_TOO_LARGE else OK
    ensures rc == OK ==> stored == Encode(crc, version, value)
    ensures rc != OK ==> stored == []
  {
    if version == 0 || |value| == 0 {
      return ERR_INVALID, [];
    }
    if |value| > max {
      return ERR_TOO_LARGE, [];
    }
    var record := new byte[HEADER_SIZE + max](_ => 0);
    var end := HEADER_SIZE + |value|;
    FillHead(record, version, |value|);
    PutBytes(record, HEADER_SIZE, value);
    assert record[..8] == record[..HEADER_SIZE][..8] == Head(version, |value|);
    DropThenTake(record[..], HEADER_SIZE, end);
    var sum := crc(record[..8], record[HEADER_SIZE..end]);
    PutBytes(record, 8, PutLe32(sum));
    DropThenTake(record[..], HEADER_SIZE, end);
    stored := record[..end];
    ThreeParts(record[..], 8, HEADER_SIZE, end);
    rc := OK;
  }

  /** The caller-owned outputs of a record read. */
  class Outputs {
    var version: u16
    var size: nat
    var value: array<byte>

    constructor (capacity: nat)
      ensures fresh(value) && value.Length == capacity
    {
      version, size := 0, 0;
      value := new byte[capacity](_ => 0);
    }

    /** Copies out only after every check has passed, so any error leaves all outputs alone. */
    method ReadRecord(crc: Crc, max: nat, stored: seq<byte>) returns (rc: int)
      requires ValidMax(max)
      modifies this`version, this`size, value
      ensures match Decode(crc, max, value.Length, stored)
              case Rejected(code) =>
                rc == (if value.Length == 0 then ERR_INVALID else code)
                && unchanged(this) && unchanged(value)
              case Accepted(v, payload) =>
                rc == OK && version == v && size == |payload| && value[..size] == payload
                && value[size..] == old(value[|payload|..])
    {
      if value.Length == 0 {
        return ERR_INVALID;
      }
      if |stored| > HEADER_SIZE + max {
        return ERR_TOO_LARGE;
      }
      if |stored| == 0 {
        return ERR_NOT_FOUND;
      }
      if |stored| <= HEADER_SIZE || GetLe32(stored[..4]) != MAGIC || GetLe16(stored[4..6]) == 0 {
        return ERR_BAD_MESSAGE;
      }
      var payloadSize := GetLe16(stored[6..8]);
      if payloadSize != |stored| - HEADER_SIZE {
        return ERR_BAD_MESSAGE;
      }
      assert stored[HEADER_SIZE..HEADER_SIZE + payloadSize] == stored[12..];
      if GetLe32(stored[8..12]) != crc(stored[..8], stored[HEADER_SIZE..HEADER_SIZE + payloadSize]) {
        return ERR_BAD_MESSAGE;
      }
      if payloadSize > value.Length {
        return ERR_TOO_LARGE;
      }
      PutBytes(value, 0, stored[HEADER_SIZE..]);
      size := payloadSize;
      version := GetLe16(stored[4..6]);
      rc := OK;
    }
  }
}
