/**
 The bridge tape: framed records with a 48-byte header, read until the tape
 ends or breaks off inside a record.
 */
module BridgeTape {
  import opened Wrappers
  import opened Bytes
  import Crc32c

  const RECORD_HEADER_BYTES: nat := 48
  const WIRE_HEADER_BYTES: nat := 80
  const WIRE_MAGIC: seq<byte> := [0x47, 0x53, 0x49, 0x4d, 0x52, 0x50, 0x43, 0x00]
  const WIRE_CRC_OFFSET: nat := 64
  const KMT_OPERATION_OFFSET: nat := 4

  datatype WireHeader = WireHeader(
    magicOk: bool,
    framingMajor: nat,
    framingMinor: nat,
    headerBytes: nat,
    messageType: nat,
    flags: nat,
    payloadBytes: nat,
    requestId: nat,
    daemonUuid: seq<byte>,
    connectionId: nat,
    jobEpoch: nat,
    crc: nat,
    crcOk: bool,
    kmtOperation: Option<nat>)

  datatype Entry = Entry(
    sequence: nat,
    direction: byte,
    carrier: bool,
    flags: nat,
    clientFd: nat,
    generation: nat,
    simTick: nat,
    monotonicNs: nat,
    recordBytes: nat,
    recordDigest: Digest<seq<byte>>,
    wire: Option<WireHeader>,
    prefix: Option<seq<byte>>)

  /** What the record iterator yields: the entries, then one trailer. */
  datatype Item = Record(entry: Entry) | Trailer(records: nat, truncated: bool)

  // ----- Framing -----

  /** One record as it lies on the tape. */
  datatype Frame = Frame(header: seq<byte>, payload: seq<byte>)

  predicate WellFramed(f: Frame) {
    |f.header| == RECORD_HEADER_BYTES && BigEndian(f.header[8..12]) == |f.payload|
  }

  function Written(fs: seq<Frame>): (tape: seq<byte>) {
    if fs == [] then [] else fs[0].header + fs[0].payload + Written(fs[1..])
  }

  function FrameSize(f: Frame): nat {
    |f.header| + |f.payload|
  }

  /** The size of the first record of a tape, or 0 when the tape breaks off before its end. */
  function FirstSize(tape: seq<byte>): (n: nat)
    ensures n == 0 || RECORD_HEADER_BYTES <= n <= |tape|
  {
    if |tape| < RECORD_HEADER_BYTES then 0
    else
      var n := RECORD_HEADER_BYTES + BigEndian(tape[8..12]);
      if |tape| < n then 0 else n
  }

  function FrameOf(tape: seq<byte>, size: nat): (f: Frame)
    requires RECORD_HEADER_BYTES <= size <= |tape|
    ensures FrameSize(f) == size
  {
    Frame(tape[..RECORD_HEADER_BYTES], tape[RECORD_HEADER_BYTES..size])
  }

  /** All complete records, and the bytes after the last one. */
  function Frames(tape: seq<byte>): (fs: seq<Frame>)
    ensures forall i :: 0 <= i < |fs| ==> WellFramed(fs[i])
    decreases |tape|
  {
    if FirstSize(tape) == 0 then []
    else
      assert tape[..RECORD_HEADER_BYTES][8..12] == tape[8..12];
      [FrameOf(tape, FirstSize(tape))] + Frames(tape[FirstSize(tape)..])
  }

  function Leftover(tape: seq<byte>): (rest: seq<byte>)
    ensures FirstSize(rest) == 0
    decreases |tape|
  {
    if FirstSize(tape) == 0 then tape else Leftover(tape[FirstSize(tape)..])
  }

  lemma WrittenFirst(f: Frame, fs: seq<Frame>)
    ensures Written([f] + fs) == f.header + f.payload + Written(fs)
  {
    assert ([f] + fs)[1..] == fs;
  }

  lemma ThreeParts(tape: seq<byte>, n: nat, written: seq<byte>, left: seq<byte>)
    requires RECORD_HEADER_BYTES <= n <= |tape| && tape[n..] == written + left
    ensures tape[..RECORD_HEADER_BYTES] + tape[RECORD_HEADER_BYTES..n] + written + left == tape
  {
    assert tape[..n] == tape[..RECORD_HEADER_BYTES] + tape[RECORD_HEADER_BYTES..n];
    assert tape == tape[..n] + tape[n..];
  }

  /** Nothing on a tape is lost or invented: every tape is its records followed by the leftover. */
  lemma {:induction false} FramingIsLossless(tape: seq<byte>)
    ensures Written(Frames(tape)) + Leftover(tape) == tape
    decreases |tape|
  {
    var n := FirstSize(tape);
    if n == 0 {
      assert Written([]) + tape == tape;
    } else {
      var rest := tape[n..];
      FramingIsLossless(rest);
      WrittenFirst(FrameOf(tape, n), Frames(rest));
      ThreeParts(tape, n, Written(Frames(rest)), Leftover(rest));
    }
  }

  /** A tape that starts with a record reads that record first. */
  lemma FirstOf(f: Frame, rest: seq<byte>)
    requires WellFramed(f)
    ensures var tape := f.header + f.payload + rest;
            FirstSize(tape) == FrameSize(f) && FrameOf(tape, FrameSize(f)) == f && tape[FrameSize(f)..] == rest
  {
    var tape := f.header + f.payload + rest;
    assert tape[8..12] == f.header[8..12];
    assert tape[..RECORD_HEADER_BYTES] == f.header;
    assert tape[RECORD_HEADER_BYTES..FrameSize(f)] == f.payload;
    assert tape[FrameSize(f)..] == rest;
  }

  lemma {:induction false} FramesOfWritten(fs: seq<Frame>, partial: seq<byte>)
    requires forall i :: 0 <= i < |fs| ==> WellFramed(fs[i])
    requires FirstSize(partial) == 0
    ensures Frames(Written(fs) + partial) == fs && Leftover(Written(fs) + partial) == partial
  {
    if fs == [] {
      assert Written(fs) + partial == partial;
    } else {
      var f, rest := fs[0], Written(fs[1..]) + partial;
      assert Written(fs) + partial == f.header + f.payload + rest;
      FirstOf(f, rest);
      FramesOfWritten(fs[1..], partial);
    }
  }

  /** A record cut off anywhere before its last byte does not read as a record. */
  lemma CutRecordIsNoFrame(f: Frame, cut: nat)
    requires WellFramed(f) && cut < FrameSize(f)
    ensures FirstSize((f.header + f.payload)[..cut]) == 0
  {
    var partial := (f.header + f.payload)[..cut];
    if RECORD_HEADER_BYTES <= cut {
      assert partial[8..12] == f.header[8..12];
    }
  }

  // ----- Record fields -----

  function IsKmt(messageType: nat): bool {
    messageType == 14 || messageType == 15
  }

  /** The record with its checksum field cleared. */
  function Zeroed(record: seq<byte>): (z: seq<byte>)
    requires |record| >= WIRE_HEADER_BYTES
    ensures |z| == |record|
  {
    record[..WIRE_CRC_OFFSET] + Zeros(4) + record[WIRE_CRC_OFFSET + 4..]
  }

  function StoredCrc(record: seq<byte>): nat
    requires |record| >= WIRE_HEADER_BYTES
  {
    BigEndian(record[WIRE_CRC_OFFSET..WIRE_CRC_OFFSET + 4])
  }

  predicate CrcOk(record: seq<byte>)
    requires |record| >= WIRE_HEADER_BYTES
  {
    Crc32c.FromBits(Crc32c.Crc(Zeroed(record))) == StoredCrc(record)
  }

  function DecodeWireHeader(record: seq<byte>): (h: Option<WireHeader>)
    ensures h.Some? <==> |record| >= WIRE_HEADER_BYTES
  {
    if |record| < WIRE_HEADER_BYTES then None
    else
      var messageType := BigEndian(record[14..16]);
      var at := WIRE_HEADER_BYTES + KMT_OPERATION_OFFSET;
      Some(WireHeader(
        record[..8] == WIRE_MAGIC,
        BigEndian(record[8..10]),
        BigEndian(record[10..12]),
        BigEndian(record[12..14]),
        messageType,
        BigEndian(record[16..20]),
        BigEndian(record[20..24]),
        BigEndian(record[24..32]),
        record[32..48],
        BigEndian(record[48..56]),
        BigEndian(record[56..64]),
        StoredCrc(record),
        CrcOk(record),
        if IsKmt(messageType) && |record| >= at + 2 then Some(BigEndian(record[at..at + 2])) else None))
  }

  /** The members of the wire header are merged into the entry, where its flags replace those of the tape. */
  function MergedFlags(tapeFlags: nat, wire: Option<WireHeader>): nat {
    if wire.Some? then wire.value.flags else tapeFlags
  }

  function Decode(f: Frame, prefixBytes: nat): (e: Entry)
    requires WellFramed(f)
    ensures e.recordBytes == |f.payload| && e.recordDigest == Sha256(f.payload)
  {
    Entry(
      BigEndian(f.header[24..32]),
      f.header[0],
      f.header[1] != 0,
      MergedFlags(BigEndian(f.header[2..4]), DecodeWireHeader(f.payload)),
      BigEndian(f.header[4..8]),
      BigEndian(f.header[16..24]),
      BigEndian(f.header[32..40]),
      BigEndian(f.header[40..48]),
      BigEndian(f.header[8..12]),
      Sha256(f.payload),
      DecodeWireHeader(f.payload),
      if prefixBytes > 0
      then Some(f.payload[..if prefixBytes < |f.payload| then prefixBytes else |f.payload|])
      else None)
  }

  /** What the tape's writer puts into one record. */
  datatype Fields = Fields(
    direction: byte,
    carrier: byte,
    flags: nat,
    clientFd: nat,
    reserved: nat,
    generation: nat,
    sequence: nat,
    simTick: nat,
    monotonicNs: nat,
    payload: seq<byte>)

  predicate Representable(r: Fields) {
    && r.flags < Span(2) && r.clientFd < Span(4) && |r.payload| < Span(4) && r.reserved < Span(4)
    && r.generation < Span(8) && r.sequence < Span(8) && r.simTick < Span(8) && r.monotonicNs < Span(8)
  }

  function Encode(r: Fields): (f: Frame)
    requires Representable(r)
    ensures |f.header| == RECORD_HEADER_BYTES && f.payload == r.payload
  {
    Frame([r.direction, r.carrier] + Pack(r.flags, 2) + Pack(r.clientFd, 4) + Pack(|r.payload|, 4)
          + Pack(r.reserved, 4) + Pack(r.generation, 8) + Pack(r.sequence, 8) + Pack(r.simTick, 8)
          + Pack(r.monotonicNs, 8), r.payload)
  }

  /** The header holds the numbers of the record. */
  predicate HeaderHolds(h: seq<byte>, r: Fields) {
    && |h| == RECORD_HEADER_BYTES && h[0] == r.direction && h[1] == r.carrier
    && BigEndian(h[2..4]) == r.flags && BigEndian(h[4..8]) == r.clientFd
    && BigEndian(h[8..12]) == |r.payload| && BigEndian(h[16..24]) == r.generation
    && BigEndian(h[24..32]) == r.sequence && BigEndian(h[32..40]) == r.simTick
    && BigEndian(h[40..48]) == r.monotonicNs
  }

  lemma EncodedFields(r: Fields)
    requires Representable(r)
    ensures HeaderHolds(Encode(r).header, r)
  {
    var h := Encode(r).header;
    assert h[2..4] == Pack(r.flags, 2);
    assert h[4..8] == Pack(r.clientFd, 4);
    assert h[8..12] == Pack(|r.payload|, 4);
    assert h[16..24] == Pack(r.generation, 8);
    assert h[24..32] == Pack(r.sequence, 8);
    assert h[32..40] == Pack(r.simTick, 8);
    assert h[40..48] == Pack(r.monotonicNs, 8);
  }

  /** The tape flags of a record can be read back: no wire header hides them, or its flags are the same. */
  predicate KeepsFlags(r: Fields) {
    |r.payload| < WIRE_HEADER_BYTES || BigEndian(r.payload[16..20]) == r.flags
  }

  /** The entry carries every field the writer stored, but for tape flags that the wire header hides. */
  predicate Describes(e: Entry, r: Fields, prefixBytes: nat) {
    && e.direction == r.direction && e.carrier == (r.carrier != 0)
    && (e.flags == r.flags <==> KeepsFlags(r))
    && e.clientFd == r.clientFd && e.generation == r.generation && e.sequence == r.sequence
    && e.simTick == r.simTick && e.monotonicNs == r.monotonicNs
    && e.recordBytes == |r.payload| && e.recordDigest == Sha256(r.payload)
    && e.wire == DecodeWireHeader(r.payload) && IsPrefix(e.prefix, r.payload, prefixBytes)
  }

  /** The first bytes of the record, as many as were asked for and there are; none when none were asked for. */
  predicate IsPrefix(prefix: Option<seq<byte>>, payload: seq<byte>, prefixBytes: nat) {
    && (prefix.None? <==> prefixBytes == 0)
    && (prefix.Some? ==>
          && prefix.value <= payload && |prefix.value| <= prefixBytes
          && (|prefix.value| == prefixBytes || prefix.value == payload))
  }

  /** The entry of a record that decodes to this wire header. */
  function EntryWith(r: Fields, wire: Option<WireHeader>, prefixBytes: nat): Entry {
    Entry(
      r.sequence, r.direction, r.carrier != 0, MergedFlags(r.flags, wire), r.clientFd, r.generation, r.simTick,
      r.monotonicNs, |r.payload|, Sha256(r.payload), wire,
      if prefixBytes > 0
      then Some(r.payload[..if prefixBytes < |r.payload| then prefixBytes else |r.payload|])
      else None)
  }

  lemma HeldIsDecoded(f: Frame, r: Fields, prefixBytes: nat)
    requires HeaderHolds(f.header, r) && f.payload == r.payload
    ensures WellFramed(f) && Decode(f, prefixBytes) == EntryWith(r, DecodeWireHeader(r.payload), prefixBytes)
  {
  }

  lemma DecodeInvertsEncode(r: Fields, prefixBytes: nat)
    requires Representable(r)
    ensures WellFramed(Encode(r))
    ensures Decode(Encode(r), prefixBytes) == EntryWith(r, DecodeWireHeader(r.payload), prefixBytes)
  {
    EncodedFields(r);
    HeldIsDecoded(Encode(r), r, prefixBytes);
  }

  lemma EncodedIsDescribed(r: Fields, prefixBytes: nat)
    requires Representable(r)
    ensures WellFramed(Encode(r)) && Describes(Decode(Encode(r), prefixBytes), r, prefixBytes)
  {
    DecodeInvertsEncode(r, prefixBytes);
  }

  lemma HiddenFlags(r: Fields, flags: nat, wire: Option<WireHeader>, prefixBytes: nat)
    requires wire.Some?
    ensures EntryWith(r.(flags := flags), wire, prefixBytes) == EntryWith(r, wire, prefixBytes)
  {
  }

  /** Records that differ in their tape flags alone read as the same entry when they hold a wire header. */
  lemma WireHeaderHidesFlags(r: Fields, flags: nat, prefixBytes: nat)
    requires Representable(r) && flags < Span(2) && |r.payload| >= WIRE_HEADER_BYTES
    ensures Representable(r.(flags := flags))
    ensures WellFramed(Encode(r)) && WellFramed(Encode(r.(flags := flags)))
    ensures Decode(Encode(r), prefixBytes) == Decode(Encode(r.(flags := flags)), prefixBytes)
  {
    DecodeInvertsEncode(r, prefixBytes);
    DecodeInvertsEncode(r.(flags := flags), prefixBytes);
    HiddenFlags(r, flags, DecodeWireHeader(r.payload), prefixBytes);
  }

  /** So at most one value of the tape flags can be read back. */
  lemma OneFlagsValueIsKept(r: Fields, flags: nat)
    requires |r.payload| >= WIRE_HEADER_BYTES && flags != r.flags
    ensures !KeepsFlags(r) || !KeepsFlags(r.(flags := flags))
  {
  }

  function EncodeAll(rs: seq<Fields>): (fs: seq<Frame>)
    requires forall i :: 0 <= i < |rs| ==> Representable(rs[i])
    ensures |fs| == |rs| && forall i :: 0 <= i < |rs| ==> fs[i] == Encode(rs[i])
  {
    seq(|rs|, i requires 0 <= i < |rs| => Encode(rs[i]))
  }

  // ----- The record iterator -----

  function Items(tape: seq<byte>, prefixBytes: nat): (items: seq<Item>)
    ensures |items| == |Frames(tape)| + 1
  {
    Entries(Frames(tape), prefixBytes) + [Trailer(|Frames(tape)|, Leftover(tape) != [])]
  }

  function Entries(fs: seq<Frame>, prefixBytes: nat): (items: seq<Item>)
    requires forall i {:trigger fs[i]} :: 0 <= i < |fs| ==> WellFramed(fs[i])
    ensures |items| == |fs|
  {
    seq(|fs|, i requires 0 <= i < |fs| && WellFramed(fs[i]) => Record(Decode(fs[i], prefixBytes)))
  }

  /** `stream.read(count)` at a position of the tape. */
  function Read(tape: seq<byte>, position: nat, count: nat): (chunk: seq<byte>)
    requires position <= |tape|
    ensures |chunk| <= count && position + |chunk| <= |tape|
    ensures chunk == tape[position..position + |chunk|]
    ensures |chunk| < count ==> position + |chunk| == |tape|
  {
    if position + count <= |tape| then tape[position..position + count] else tape[position..]
  }

  lemma Regroup(h: seq<byte>, p: seq<byte>, a: seq<byte>, b: seq<byte>)
    ensures h + p + (a + b) == h + p + a + b
  {
  }

  lemma DropFirst(a: seq<byte>, b: seq<byte>)
    ensures (a + b)[|a|..] == b
  {
  }

  lemma {:induction false} WrittenConcat(a: seq<Frame>, b: seq<Frame>)
    ensures Written(a + b) == Written(a) + Written(b)
  {
    if a == [] {
      assert a + b == b;
    } else {
      WrittenConcat(a[1..], b);
      assert (a + b)[1..] == a[1..] + b;
      Regroup(a[0].header, a[0].payload, Written(a[1..]), Written(b));
    }
  }

  lemma WrittenLast(fs: seq<Frame>, f: Frame)
    ensures Written(fs + [f]) == Written(fs) + f.header + f.payload
  {
    WrittenConcat(fs, [f]);
    WrittenFirst(f, []);
    assert [f] + [] == [f];
  }

  /** Where record n of a tape starts, and where its leftover does. */
  function Position(tape: seq<byte>, n: nat): nat
    requires n <= |Frames(tape)|
  {
    |Written(Frames(tape)[..n])|
  }

  lemma TapeSplits(tape: seq<byte>, fs: seq<Frame>, n: nat)
    requires fs == Frames(tape) && n <= |fs|
    ensures tape == Written(fs[..n]) + (Written(fs[n..]) + Leftover(tape))
  {
    FramingIsLossless(tape);
    WrittenConcat(fs[..n], fs[n..]);
    assert fs[..n] + fs[n..] == fs;
  }

  /** What is left of a tape behind its first part. */
  lemma FramesBehind(tape: seq<byte>, first: seq<byte>, fs: seq<Frame>, left: seq<byte>)
    requires tape == first + (Written(fs) + left) && FirstSize(left) == 0
    requires forall i :: 0 <= i < |fs| ==> WellFramed(fs[i])
    ensures |first| <= |tape| && Frames(tape[|first|..]) == fs && Leftover(tape[|first|..]) == left
  {
    DropFirst(first, Written(fs) + left);
    FramesOfWritten(fs, left);
  }

  /** From there on the tape reads as its remaining records. */
  lemma FramesFrom(tape: seq<byte>, n: nat)
    requires n <= |Frames(tape)|
    ensures Position(tape, n) <= |tape|
    ensures Frames(tape[Position(tape, n)..]) == Frames(tape)[n..]
    ensures Leftover(tape[Position(tape, n)..]) == Leftover(tape)
  {
    var fs := Frames(tape);
    TapeSplits(tape, fs, n);
    FramesBehind(tape, Written(fs[..n]), fs[n..], Leftover(tape));
  }

  /** The record at a position, or none when the tape ends before it does. */
  predicate ReadAt(tape: seq<byte>, position: nat, f: Option<Frame>) {
    && position <= |tape|
    && match f
       case None => FirstSize(tape[position..]) == 0
       case Some(frame) =>
         && WellFramed(frame) && position + FrameSize(frame) <= |tape|
         && frame.header == tape[position..position + RECORD_HEADER_BYTES]
         && frame.payload == tape[position + RECORD_HEADER_BYTES..position + FrameSize(frame)]
  }

  /** A full header and a full body are the first record of what is left. */
  lemma ReadIsFirst(tape: seq<byte>, position: nat, f: Frame)
    requires ReadAt(tape, position, Some(f))
    ensures Frames(tape[position..]) != [] && Frames(tape[position..])[0] == f
  {
    var rest := tape[position + FrameSize(f)..];
    assert tape[position..] == f.header + f.payload + rest;
    FirstOf(f, rest);
  }

  /** What is read at the start of record n is that record, or nothing after the last one. */
  lemma ReadMatches(tape: seq<byte>, n: nat, f: Option<Frame>)
    requires n <= |Frames(tape)| && ReadAt(tape, Position(tape, n), f)
    ensures f.None? <==> n == |Frames(tape)|
    ensures f.Some? ==> f.value == Frames(tape)[n]
    ensures f.None? ==> (Position(tape, n) < |tape| <==> Leftover(tape) != [])
  {
    FramesFrom(tape, n);
    if f.Some? {
      ReadIsFirst(tape, Position(tape, n), f.value);
    }
  }

  /** The next record starts where this one ends. */
  lemma NextPosition(tape: seq<byte>, n: nat)
    requires n < |Frames(tape)|
    ensures Position(tape, n + 1) == Position(tape, n) + FrameSize(Frames(tape)[n])
  {
    var fs := Frames(tape);
    WrittenLast(fs[..n], fs[n]);
    assert fs[..n + 1] == fs[..n] + [fs[n]];
  }

  lemma ShortRest(tape: seq<byte>, position: nat)
    requires position <= |tape|
    requires |tape| - position < RECORD_HEADER_BYTES
          || |tape| - position < RECORD_HEADER_BYTES + BigEndian(tape[position + 8..position + 12])
    ensures FirstSize(tape[position..]) == 0
  {
    if |tape| - position >= RECORD_HEADER_BYTES {
      SliceOfHeld(tape, position, tape[position..], position + 8, position + 12);
    }
  }

  /** Reading one record: its header, then as many bytes as the header says. */
  method ReadRecord(tape: seq<byte>, position: nat) returns (f: Option<Frame>, truncated: bool)
    requires position <= |tape|
    ensures ReadAt(tape, position, f)
    ensures truncated == (f.None? && position < |tape|)
  {
    var header := Read(tape, position, RECORD_HEADER_BYTES);
    if |header| != RECORD_HEADER_BYTES {
      ShortRest(tape, position);
      return None, header != [];
    }
    SliceOfHeld(tape, position, header, position + 8, position + 12);
    var length := BigEndian(header[8..12]);
    var record := Read(tape, position + RECORD_HEADER_BYTES, length);
    if |record| != length {
      ShortRest(tape, position);
      return None, true;
    }
    return Some(Frame(header, record)), false;
  }

  /** The loop of the iterator, whatever it makes of each record. */
  method ReadAll<T>(tape: seq<byte>, decode: Frame --> T) returns (entries: seq<T>, truncated: bool)
    requires forall f {:trigger decode.requires(f)} :: WellFramed(f) ==> decode.requires(f)
    ensures |entries| == |Frames(tape)|
    ensures forall i {:trigger entries[i]} :: 0 <= i < |entries| ==>
              decode.requires(Frames(tape)[i]) && entries[i] == decode(Frames(tape)[i])
    ensures truncated <==> Leftover(tape) != []
  {
    entries := [];
    var position, records := 0, 0;
    truncated := false;
    while true
      invariant records == |entries| <= |Frames(tape)| && position == Position(tape, records) && position <= |tape|
      invariant forall i {:trigger entries[i]} :: 0 <= i < records ==>
                  decode.requires(Frames(tape)[i]) && entries[i] == decode(Frames(tape)[i])
      decreases |tape| - position
    {
      var frame;
      frame, truncated := ReadRecord(tape, position);
      ReadMatches(tape, records, frame);
      if frame.None? {
        break;
      }
      NextPosition(tape, records);
      FramesFrom(tape, records + 1);
      entries := entries + [decode(frame.value)];
      records := records + 1;
      position := position + FrameSize(frame.value);
    }
  }

  function Decoder(prefixBytes: nat): Frame --> Item {
    (f: Frame) requires WellFramed(f) => Record(Decode(f, prefixBytes))
  }

  lemma DecodedAre(entries: seq<Item>, fs: seq<Frame>, decode: Frame --> Item, prefixBytes: nat)
    requires decode == Decoder(prefixBytes) && |entries| == |fs|
    requires forall i {:trigger fs[i]} :: 0 <= i < |fs| ==> WellFramed(fs[i])
    requires forall i {:trigger entries[i]} :: 0 <= i < |fs| ==> decode.requires(fs[i]) && entries[i] == decode(fs[i])
    ensures entries == Entries(fs, prefixBytes)
  {
    var expected := Entries(fs, prefixBytes);
    forall i | 0 <= i < |fs|
      ensures entries[i] == expected[i]
    {
      assert entries[i] == decode(fs[i]);
    }
  }

  method IterRecords(tape: seq<byte>, prefixBytes: nat) returns (items: seq<Item>)
    ensures items == Items(tape, prefixBytes)
  {
    var decode := Decoder(prefixBytes);
    var entries, truncated := ReadAll(tape, decode);
    DecodedAre(entries, Frames(tape), decode, prefixBytes);
    items := entries + [Trailer(|entries|, truncated)];
  }

  /** Written frames, with a leftover that holds no frame, are read as just those frames. */
  lemma ItemsOfWritten(fs: seq<Frame>, partial: seq<byte>, prefixBytes: nat)
    requires forall i :: 0 <= i < |fs| ==> WellFramed(fs[i])
    requires FirstSize(partial) == 0
    ensures Items(Written(fs) + partial, prefixBytes) == Entries(fs, prefixBytes) + [Trailer(|fs|, partial != [])]
  {
    FramesOfWritten(fs, partial);
  }

  lemma EntriesDescribe(rs: seq<Fields>, prefixBytes: nat)
    requires forall i {:trigger rs[i]} :: 0 <= i < |rs| ==> Representable(rs[i])
    ensures forall i {:trigger rs[i]} :: 0 <= i < |rs| ==> WellFramed(Encode(rs[i]))
    ensures ReadsBack(Entries(EncodeAll(rs), prefixBytes), rs, prefixBytes)
  {
    forall i {:trigger rs[i]} | 0 <= i < |rs|
      ensures WellFramed(Encode(rs[i]))
    {
      EncodedIsDescribed(rs[i], prefixBytes);
    }
    var fs := EncodeAll(rs);
    var items := Entries(fs, prefixBytes);
    forall i {:trigger items[i]} | 0 <= i < |rs|
      ensures items[i].Record? && Describes(items[i].entry, rs[i], prefixBytes)
    {
      EncodedIsDescribed(rs[i], prefixBytes);
      assert fs[i] == Encode(rs[i]) && items[i] == Record(Decode(fs[i], prefixBytes));
    }
  }

  /** One entry for each record, in order. */
  predicate ReadsBack(items: seq<Item>, rs: seq<Fields>, prefixBytes: nat) {
    && |items| == |rs|
    && forall i {:trigger items[i]} :: 0 <= i < |items| ==> items[i].Record? && Describes(items[i].entry, rs[i], prefixBytes)
  }

  /** The first bytes of one more record. */
  function CutRecord(next: Fields, cut: nat): seq<byte>
    requires Representable(next) && cut < FrameSize(Encode(next))
  {
    (Encode(next).header + Encode(next).payload)[..cut]
  }

  lemma CutRecordIsLeftover(next: Fields, cut: nat)
    requires Representable(next) && cut < FrameSize(Encode(next))
    ensures FirstSize(CutRecord(next, cut)) == 0 && |CutRecord(next, cut)| == cut
  {
    DecodeInvertsEncode(next, 0);
    CutRecordIsNoFrame(Encode(next), cut);
  }

  /**
   Whatever records are written, followed by any strict prefix of one more,
   the iterator yields those records in order with every stored field, except
   that tape flags read back exactly when no other wire flags hide them, and
   says truncated exactly when the prefix is not empty.
   */
  lemma TapeRoundTrip(rs: seq<Fields>, next: Fields, cut: nat, prefixBytes: nat)
    requires forall i {:trigger rs[i]} :: 0 <= i < |rs| ==> Representable(rs[i])
    requires Representable(next) && cut < FrameSize(Encode(next))
    ensures var items := Items(Written(EncodeAll(rs)) + CutRecord(next, cut), prefixBytes);
            |items| == |rs| + 1 && ReadsBack(items[..|rs|], rs, prefixBytes) && items[|rs|] == Trailer(|rs|, cut != 0)
  {
    EntriesDescribe(rs, prefixBytes);
    CutRecordIsLeftover(next, cut);
    ItemsOfWritten(EncodeAll(rs), CutRecord(next, cut), prefixBytes);
    TrailerIsLast(Entries(EncodeAll(rs), prefixBytes), rs, cut, prefixBytes);
  }

  lemma TrailerIsLast(entries: seq<Item>, rs: seq<Fields>, cut: nat, prefixBytes: nat)
    requires ReadsBack(entries, rs, prefixBytes)
    ensures var items := entries + [Trailer(|rs|, cut != 0)];
            |items| == |rs| + 1 && ReadsBack(items[..|rs|], rs, prefixBytes) && items[|rs|] == Trailer(|rs|, cut != 0)
  {
    assert (entries + [Trailer(|rs|, cut != 0)])[..|rs|] == entries;
  }

  // ----- The summary -----

  datatype Message = Malformed | Type(code: nat)

  datatype Summary = Summary(
    records: nat,
    truncated: bool,
    recordBytes: nat,
    carrierRecords: nat,
    crcFailures: nat,
    firstTick: Option<nat>,
    lastTick: Option<nat>,
    byDirection: map<byte, nat>,
    byMessage: map<Message, nat>,
    byConnection: map<(nat, nat), nat>)

  function MessageOf(e: Entry): Message {
    if e.wire.Some? then Type(e.wire.value.messageType) else Malformed
  }

  function ConnectionOf(e: Entry): (nat, nat) {
    (e.clientFd, e.generation)
  }

  function CountIn<K>(counts: map<K, nat>, key: K): nat {
    if key in counts then counts[key] else 0
  }

  ghost function Total<K(!new)>(counts: map<K, nat>): nat {
    if counts.Keys == {} then 0
    else
      var key :| key in counts;
      counts[key] + Total(counts - {key})
  }

  lemma {:induction false} TotalWithout<K(!new)>(counts: map<K, nat>, key: K)
    requires key in counts
    ensures Total(counts) == counts[key] + Total(counts - {key})
    decreases |counts|
  {
    var first :| first in counts && Total(counts) == counts[first] + Total(counts - {first});
    if first != key {
      TotalWithout(counts - {first}, key);
      TotalWithout(counts - {key}, first);
      assert counts - {first} - {key} == counts - {key} - {first};
    }
  }

  lemma TotalAfterIncrement<K(!new)>(counts: map<K, nat>, key: K)
    ensures Total(counts[key := CountIn(counts, key) + 1]) == Total(counts) + 1
  {
    var more := counts[key := CountIn(counts, key) + 1];
    TotalWithout(more, key);
    if key in counts {
      TotalWithout(counts, key);
      assert more - {key} == counts - {key};
    } else {
      assert more - {key} == counts;
    }
  }

  function SumBytes(es: seq<Entry>): nat {
    if es == [] then 0 else SumBytes(es[..|es| - 1]) + es[|es| - 1].recordBytes
  }

  function EntriesOf(items: seq<Item>): seq<Entry> {
    if items == [] then []
    else
      var before := EntriesOf(items[..|items| - 1]);
      if items[|items| - 1].Record? then before + [items[|items| - 1].entry] else before
  }

  function CountOf<K(==)>(keys: seq<K>, key: K): nat {
    if keys == [] then 0
    else CountOf(keys[..|keys| - 1], key) + (if keys[|keys| - 1] == key then 1 else 0)
  }

  /** Every key is counted as often as it occurs, and the counts add up to the length. */
  ghost predicate Tallies<K(!new)>(counts: map<K, nat>, keys: seq<K>) {
    && Total(counts) == |keys|
    && forall key :: CountIn(counts, key) == CountOf(keys, key)
  }

  lemma TallyStep<K(!new)>(counts: map<K, nat>, keys: seq<K>, key: K)
    requires Tallies(counts, keys)
    ensures Tallies(counts[key := CountIn(counts, key) + 1], keys + [key])
  {
    TotalAfterIncrement(counts, key);
    var more := counts[key := CountIn(counts, key) + 1];
    forall other
      ensures CountIn(more, other) == CountOf(keys + [key], other)
    {
      assert (keys + [key])[..|keys|] == keys;
      assert CountIn(counts, other) == CountOf(keys, other);
    }
  }

  function Directions(es: seq<Entry>): seq<byte> {
    seq(|es|, i requires 0 <= i < |es| => es[i].direction)
  }

  function Messages(es: seq<Entry>): seq<Message> {
    seq(|es|, i requires 0 <= i < |es| => if es[i].wire.Some? then Type(es[i].wire.value.messageType) else Malformed)
  }

  function Connections(es: seq<Entry>): seq<(nat, nat)> {
    seq(|es|, i requires 0 <= i < |es| => (es[i].clientFd, es[i].generation))
  }

  function Carriers(es: seq<Entry>): seq<bool> {
    seq(|es|, i requires 0 <= i < |es| => es[i].carrier)
  }

  function FailedCrcs(es: seq<Entry>): seq<bool> {
    seq(|es|, i requires 0 <= i < |es| => es[i].wire.Some? && !es[i].wire.value.crcOk)
  }

  predicate FailedCrc(e: Entry) {
    e.wire.Some? && !e.wire.value.crcOk
  }

  /** What a summary reports agrees with the entries it was made from. */
  ghost predicate Accounts(s: Summary, es: seq<Entry>) {
    CountsAgree(s, es) && SumsAgree(s, es)
  }

  ghost predicate CountsAgree(s: Summary, es: seq<Entry>) {
    && Tallies(s.byDirection, Directions(es))
    && Tallies(s.byMessage, Messages(es))
    && Tallies(s.byConnection, Connections(es))
  }

  ghost predicate SumsAgree(s: Summary, es: seq<Entry>) {
    && s.recordBytes == SumBytes(es)
    && s.carrierRecords == CountOf(Carriers(es), true)
    && s.crcFailures == CountOf(FailedCrcs(es), true)
    && s.firstTick == (if es == [] then None else Some(es[0].simTick))
    && s.lastTick == (if es == [] then None else Some(es[|es| - 1].simTick))
  }

  lemma KeysOfOneMore(es: seq<Entry>, e: Entry)
    ensures Directions(es + [e]) == Directions(es) + [e.direction]
    ensures Messages(es + [e]) == Messages(es) + [MessageOf(e)]
    ensures Connections(es + [e]) == Connections(es) + [ConnectionOf(e)]
    ensures Carriers(es + [e]) == Carriers(es) + [e.carrier]
    ensures FailedCrcs(es + [e]) == FailedCrcs(es) + [FailedCrc(e)]
    ensures SumBytes(es + [e]) == SumBytes(es) + e.recordBytes
  {
    assert (es + [e])[..|es|] == es;
  }

  lemma CountOneMore(flags: seq<bool>, flag: bool)
    ensures CountOf(flags + [flag], true) == CountOf(flags, true) + (if flag then 1 else 0)
  {
    assert (flags + [flag])[..|flags|] == flags;
  }

  /** The counters after one more entry. */
  function Counted(s: Summary, e: Entry): Summary {
    s.(byMessage := s.byMessage[MessageOf(e) := CountIn(s.byMessage, MessageOf(e)) + 1],
       byDirection := s.byDirection[e.direction := CountIn(s.byDirection, e.direction) + 1],
       byConnection := s.byConnection[ConnectionOf(e) := CountIn(s.byConnection, ConnectionOf(e)) + 1],
       recordBytes := s.recordBytes + e.recordBytes,
       carrierRecords := s.carrierRecords + (if e.carrier then 1 else 0),
       crcFailures := s.crcFailures + (if FailedCrc(e) then 1 else 0),
       firstTick := if s.firstTick.None? then Some(e.simTick) else s.firstTick,
       lastTick := Some(e.simTick))
  }

  lemma CountingKeepsCounts(s: Summary, es: seq<Entry>, e: Entry)
    requires CountsAgree(s, es)
    ensures CountsAgree(Counted(s, e), es + [e])
  {
    KeysOfOneMore(es, e);
    TallyStep(s.byDirection, Directions(es), e.direction);
    TallyStep(s.byMessage, Messages(es), MessageOf(e));
    TallyStep(s.byConnection, Connections(es), ConnectionOf(e));
  }

  lemma CountingKeepsSums(s: Summary, es: seq<Entry>, e: Entry)
    requires SumsAgree(s, es)
    ensures SumsAgree(Counted(s, e), es + [e])
  {
    var more := es + [e];
    KeysOfOneMore(es, e);
    CountOneMore(Carriers(es), e.carrier);
    CountOneMore(FailedCrcs(es), FailedCrc(e));
    assert more[|more| - 1] == e && (es != [] ==> more[0] == es[0]);
  }

  lemma CountingKeepsAccounts(s: Summary, es: seq<Entry>, e: Entry)
    requires Accounts(s, es)
    ensures Accounts(Counted(s, e), es + [e])
  {
    CountingKeepsCounts(s, es, e);
    CountingKeepsSums(s, es, e);
  }

  method Summarize(items: seq<Item>) returns (s: Summary)
    ensures Accounts(s, EntriesOf(items))
    ensures items != [] && items[|items| - 1].Trailer? ==>
              s.records == items[|items| - 1].records && s.truncated == items[|items| - 1].truncated
  {
    s := Summary(0, false, 0, 0, 0, None, None, map[], map[], map[]);
    for i := 0 to |items|
      invariant Accounts(s, EntriesOf(items[..i]))
      invariant i > 0 && items[i - 1].Trailer? ==>
                  s.records == items[i - 1].records && s.truncated == items[i - 1].truncated
    {
      assert items[..i + 1][..i] == items[..i];
      if items[i].Trailer? {
        s := s.(records := items[i].records, truncated := items[i].truncated);
      } else {
        CountingKeepsAccounts(s, EntriesOf(items[..i]), items[i].entry);
        s := Counted(s, items[i].entry);
      }
    }
    assert items[..|items|] == items;
  }

  function PayloadBytes(fs: seq<Frame>): nat {
    if fs == [] then 0 else PayloadBytes(fs[..|fs| - 1]) + |fs[|fs| - 1].payload|
  }

  lemma {:induction false} EntriesOfRecords(items: seq<Item>, es: seq<Entry>)
    requires |items| == |es| && forall i {:trigger items[i]} :: 0 <= i < |es| ==> items[i] == Record(es[i])
    ensures EntriesOf(items) == es
  {
    if es != [] {
      var n := |es| - 1;
      EntriesOfRecords(items[..n], es[..n]);
      assert items[n] == Record(es[n]) && es == es[..n] + [es[n]];
    }
  }

  lemma {:induction false} SumOfSizes(es: seq<Entry>, fs: seq<Frame>)
    requires |es| == |fs| && forall i {:trigger es[i]} :: 0 <= i < |es| ==> es[i].recordBytes == |fs[i].payload|
    ensures SumBytes(es) == PayloadBytes(fs)
  {
    if es != [] {
      var n := |es| - 1;
      SumOfSizes(es[..n], fs[..n]);
      assert es[n].recordBytes == |fs[n].payload|;
    }
  }

  lemma EntriesOfItems(fs: seq<Frame>, prefixBytes: nat)
    requires forall i {:trigger fs[i]} :: 0 <= i < |fs| ==> WellFramed(fs[i])
    ensures |EntriesOf(Entries(fs, prefixBytes))| == |fs|
    ensures SumBytes(EntriesOf(Entries(fs, prefixBytes))) == PayloadBytes(fs)
  {
    var items := Entries(fs, prefixBytes);
    var es := seq(|fs|, i requires 0 <= i < |fs| && WellFramed(fs[i]) => Decode(fs[i], prefixBytes));
    forall i {:trigger items[i]} {:trigger es[i]} | 0 <= i < |fs|
      ensures items[i] == Record(es[i]) && es[i].recordBytes == |fs[i].payload|
    {
      assert items[i] == Record(Decode(fs[i], prefixBytes));
    }
    EntriesOfRecords(items, es);
    SumOfSizes(es, fs);
  }

  lemma {:induction false} WrittenBytes(fs: seq<Frame>)
    requires forall i :: 0 <= i < |fs| ==> WellFramed(fs[i])
    ensures |Written(fs)| == PayloadBytes(fs) + RECORD_HEADER_BYTES * |fs|
  {
    if fs != [] {
      var init, last := fs[..|fs| - 1], fs[|fs| - 1];
      assert init + [last] == fs;
      WrittenBytes(init);
      WrittenLast(init, last);
    }
  }

  /**
   Conservation over any tape: what a summary of its items reports accounts
   for every record and, with 48 bytes a record, for every byte before the
   leftover.
   */
  lemma SummaryConserves(tape: seq<byte>, prefixBytes: nat, s: Summary)
    requires Accounts(s, EntriesOf(Items(tape, prefixBytes)))
    requires s.records == |Frames(tape)|
    ensures Total(s.byDirection) == s.records
    ensures Total(s.byMessage) == s.records
    ensures Total(s.byConnection) == s.records
    ensures s.recordBytes + RECORD_HEADER_BYTES * s.records + |Leftover(tape)| == |tape|
  {
    EntriesOfItems(Frames(tape), prefixBytes);
    WrittenBytes(Frames(tape));
    FramingIsLossless(tape);
    var items := Items(tape, prefixBytes);
    assert items[..|items| - 1] == Entries(Frames(tape), prefixBytes);
  }

  /** A summary of a tape: reading its records and summing them up loses nothing. */
  method SummarizeTape(tape: seq<byte>, prefixBytes: nat) returns (s: Summary)
    ensures Accounts(s, EntriesOf(Items(tape, prefixBytes)))
    ensures s.records == |Frames(tape)| && (s.truncated <==> Leftover(tape) != [])
    ensures Total(s.byDirection) == s.records
    ensures Total(s.byMessage) == s.records
    ensures Total(s.byConnection) == s.records
    ensures s.recordBytes + RECORD_HEADER_BYTES * s.records + |Leftover(tape)| == |tape|
  {
    var items := IterRecords(tape, prefixBytes);
    s := Summarize(items);
    SummaryConserves(tape, prefixBytes, s);
  }

  // ----- Damage to a record -----

  /** Two records that differ, and only inside four consecutive positions. */
  ghost predicate BurstAt(a: seq<byte>, b: seq<byte>, k: nat) {
    && |a| == |b| && k + 4 <= |a| && a != b
    && a[..k] == b[..k] && a[k + 4..] == b[k + 4..]
  }

  lemma BurstChangesWindow(a: seq<byte>, b: seq<byte>, k: nat)
    requires BurstAt(a, b, k)
    ensures a[k..k + 4] != b[k..k + 4]
    ensures a == a[..k] + a[k..k + 4] + a[k + 4..]
    ensures b == a[..k] + b[k..k + 4] + a[k + 4..]
  {
    assert b == b[..k] + b[k..k + 4] + b[k + 4..];
  }

  lemma SameOutside(a: seq<byte>, b: seq<byte>, k: nat, j: nat)
    requires BurstAt(a, b, k) && j < |a| && !(k <= j < k + 4)
    ensures a[j] == b[j]
  {
    if j < k {
      assert a[..k][j] == b[..k][j];
    } else {
      assert a[k + 4..][j - k - 4] == b[k + 4..][j - k - 4];
    }
  }

  lemma ZeroedAt(a: seq<byte>, j: nat)
    requires |a| >= WIRE_HEADER_BYTES && j < |a|
    ensures Zeroed(a)[j] == if WIRE_CRC_OFFSET <= j < WIRE_CRC_OFFSET + 4 then 0 else a[j]
  {
  }

  lemma BurstOfZeroed(a: seq<byte>, b: seq<byte>, k: nat)
    requires |a| >= WIRE_HEADER_BYTES && BurstAt(a, b, k)
    requires k + 4 <= WIRE_CRC_OFFSET || WIRE_CRC_OFFSET + 4 <= k
    ensures BurstAt(Zeroed(a), Zeroed(b), k)
    ensures a[WIRE_CRC_OFFSET..WIRE_CRC_OFFSET + 4] == b[WIRE_CRC_OFFSET..WIRE_CRC_OFFSET + 4]
  {
    BurstChangesWindow(a, b, k);
    var i :| k <= i < k + 4 && a[i] != b[i];
    ZeroedAt(a, i);
    ZeroedAt(b, i);
    forall j | 0 <= j < |a| && !(k <= j < k + 4)
      ensures a[j] == b[j] && Zeroed(a)[j] == Zeroed(b)[j]
    {
      SameOutside(a, b, k, j);
      ZeroedAt(a, j);
      ZeroedAt(b, j);
    }
  }

  lemma BurstInsideCrc(a: seq<byte>, b: seq<byte>)
    requires |a| >= WIRE_HEADER_BYTES && BurstAt(a, b, WIRE_CRC_OFFSET) && CrcOk(a)
    ensures !CrcOk(b)
  {
    assert Zeroed(a) == Zeroed(b);
    BurstChangesWindow(a, b, WIRE_CRC_OFFSET);
    if StoredCrc(a) == StoredCrc(b) {
      BigEndianInjective(a[WIRE_CRC_OFFSET..WIRE_CRC_OFFSET + 4], b[WIRE_CRC_OFFSET..WIRE_CRC_OFFSET + 4]);
    }
  }

  lemma WindowChangesCrc(prefix: seq<byte>, x: seq<byte>, y: seq<byte>, suffix: seq<byte>)
    requires |x| == 4 && |y| == 4 && x != y
    ensures Crc32c.FromBits(Crc32c.Crc(prefix + x + suffix)) != Crc32c.FromBits(Crc32c.Crc(prefix + y + suffix))
  {
    Crc32c.BurstDetected(prefix, x, y, suffix);
    var c, d := Crc32c.Crc(prefix + x + suffix), Crc32c.Crc(prefix + y + suffix);
    if Crc32c.FromBits(c) == Crc32c.FromBits(d) {
      Crc32c.SameNumberSameBits(c, d);
    }
  }

  lemma BurstChangesCrc(a: seq<byte>, b: seq<byte>, k: nat)
    requires BurstAt(a, b, k)
    ensures Crc32c.FromBits(Crc32c.Crc(a)) != Crc32c.FromBits(Crc32c.Crc(b))
  {
    BurstChangesWindow(a, b, k);
    WindowChangesCrc(a[..k], a[k..k + 4], b[k..k + 4], a[k + 4..]);
  }

  lemma BurstOutsideCrc(a: seq<byte>, b: seq<byte>, k: nat)
    requires |a| >= WIRE_HEADER_BYTES && BurstAt(a, b, k) && CrcOk(a)
    requires k + 4 <= WIRE_CRC_OFFSET || WIRE_CRC_OFFSET + 4 <= k
    ensures !CrcOk(b)
  {
    BurstOfZeroed(a, b, k);
    BurstChangesCrc(Zeroed(a), Zeroed(b), k);
  }

  /**
   A record of any length whose checksum is good reads as bad after any change
   confined to four consecutive bytes that lie wholly inside or wholly outside
   the checksum field.
   */
  lemma BurstBreaksCrc(a: seq<byte>, b: seq<byte>, k: nat)
    requires |a| >= WIRE_HEADER_BYTES && BurstAt(a, b, k)
    requires DecodeWireHeader(a).value.crcOk
    requires k == WIRE_CRC_OFFSET || k + 4 <= WIRE_CRC_OFFSET || WIRE_CRC_OFFSET + 4 <= k
    ensures !DecodeWireHeader(b).value.crcOk
  {
    if k == WIRE_CRC_OFFSET {
      BurstInsideCrc(a, b);
    } else {
      BurstOutsideCrc(a, b, k);
    }
  }
}
