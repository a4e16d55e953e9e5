/** The wire header of a tape record, as a writer lays it out: one big-endian field after the other. */
module WireLayout {
  import opened BridgeTape
  import opened Bytes
  import opened Wrappers
  import Crc32c

  /** What the two ends of the bridge put in front of a message. */
  datatype Wire = Wire(
    magic: seq<byte>,
    major: nat,
    minor: nat,
    headerBytes: nat,
    messageType: nat,
    flags: nat,
    payloadBytes: nat,
    requestId: nat,
    daemonUuid: seq<byte>,
    connectionId: nat,
    jobEpoch: nat,
    crc: nat)
  {
    predicate Fits() {
      && |magic| == 8 && |daemonUuid| == 16
      && major < Span(2) && minor < Span(2) && headerBytes < Span(2) && messageType < Span(2)
      && flags < Span(4) && payloadBytes < Span(4) && crc < Span(4)
      && requestId < Span(8) && connectionId < Span(8) && jobEpoch < Span(8)
    }

    function Parts(): (parts: seq<seq<byte>>)
      requires Fits()
      ensures |parts| == 12
    {
      [magic, Pack(major, 2), Pack(minor, 2), Pack(headerBytes, 2), Pack(messageType, 2), Pack(flags, 4),
       Pack(payloadBytes, 4), Pack(requestId, 8), daemonUuid, Pack(connectionId, 8), Pack(jobEpoch, 8), Pack(crc, 4)]
    }
  }

  lemma Starts(w: Wire, parts: seq<seq<byte>>)
    requires w.Fits() && parts == w.Parts()
    ensures Offset(parts, 0) == 0 && Offset(parts, 1) == 8 && Offset(parts, 2) == 10 && Offset(parts, 3) == 12
    ensures Offset(parts, 4) == 14 && Offset(parts, 5) == 16 && Offset(parts, 6) == 20 && Offset(parts, 7) == 24
    ensures Offset(parts, 8) == 32 && Offset(parts, 9) == 48 && Offset(parts, 10) == 56 && Offset(parts, 11) == 64
  {
    assert Offset(parts, 1) == 8;
    assert Offset(parts, 2) == 10;
    assert Offset(parts, 3) == 12;
    assert Offset(parts, 4) == 14;
    assert Offset(parts, 5) == 16;
    assert Offset(parts, 6) == 20;
    assert Offset(parts, 7) == 24;
    assert Offset(parts, 8) == 32;
    assert Offset(parts, 9) == 48;
    assert Offset(parts, 10) == 56;
  }

  /** The record starts with this header. */
  predicate Carries(record: seq<byte>, w: Wire) {
    |record| >= WIRE_HEADER_BYTES && w.Fits() && HoldsAt(record, 0, w.Parts())
  }

  lemma PartAt(record: seq<byte>, parts: seq<seq<byte>>, k: nat, low: nat, high: nat)
    requires HoldsAt(record, 0, parts) && k < |parts| && low == Offset(parts, k) && high == low + |parts[k]|
    ensures high <= |record| && record[low..high] == parts[k]
  {
    PartInside(record, 0, parts, k, low, high);
  }

  /** Every field is in its place. */
  predicate ReadAs(r: seq<byte>, w: Wire)
    requires |r| >= WIRE_HEADER_BYTES
  {
    && r[0..8] == w.magic && BigEndian(r[8..10]) == w.major && BigEndian(r[10..12]) == w.minor
    && BigEndian(r[12..14]) == w.headerBytes && BigEndian(r[14..16]) == w.messageType && BigEndian(r[16..20]) == w.flags
    && BigEndian(r[20..24]) == w.payloadBytes && BigEndian(r[24..32]) == w.requestId && r[32..48] == w.daemonUuid
    && BigEndian(r[48..56]) == w.connectionId && BigEndian(r[56..64]) == w.jobEpoch && BigEndian(r[64..68]) == w.crc
  }

  lemma CarriedIsRead(record: seq<byte>, w: Wire)
    requires Carries(record, w)
    ensures ReadAs(record, w)
  {
    var parts := w.Parts();
    Starts(w, parts);
    PartAt(record, parts, 0, 0, 8);
    PartAt(record, parts, 1, 8, 10);
    PartAt(record, parts, 2, 10, 12);
    PartAt(record, parts, 3, 12, 14);
    PartAt(record, parts, 4, 14, 16);
    PartAt(record, parts, 5, 16, 20);
    PartAt(record, parts, 6, 20, 24);
    PartAt(record, parts, 7, 24, 32);
    PartAt(record, parts, 8, 32, 48);
    PartAt(record, parts, 9, 48, 56);
    PartAt(record, parts, 10, 56, 64);
    PartAt(record, parts, 11, 64, 68);
  }

  /** The operation of a KMT request or reply: two bytes, four bytes behind the header. */
  function Operation(record: seq<byte>, w: Wire): Option<nat> {
    if w.messageType in {14, 15} && |record| >= 86 then Some(BigEndian(record[84..86])) else None
  }

  /** The checksum of the record with zeros where it is stored. */
  function OwnCrc(record: seq<byte>): nat
    requires |record| >= WIRE_HEADER_BYTES
  {
    Crc32c.FromBits(Crc32c.Crc(record[..64] + [0, 0, 0, 0] + record[68..]))
  }

  /** The header that is decoded is the one that was written. */
  lemma WrittenHeaderIsDecoded(record: seq<byte>, w: Wire)
    requires Carries(record, w)
    ensures DecodeWireHeader(record)
         == Some(WireHeader(
              w.magic == [0x47, 0x53, 0x49, 0x4d, 0x52, 0x50, 0x43, 0x00], w.major, w.minor, w.headerBytes, w.messageType,
              w.flags, w.payloadBytes, w.requestId, w.daemonUuid, w.connectionId, w.jobEpoch, w.crc,
              OwnCrc(record) == w.crc, Operation(record, w)))
  {
    CarriedIsRead(record, w);
    assert record[..8] == record[0..8];
    assert Zeroed(record) == record[..64] + [0, 0, 0, 0] + record[68..];
  }

  lemma ShortRecordHasNoHeader(record: seq<byte>)
    ensures DecodeWireHeader(record).None? <==> |record| < 80
  {
  }
}
