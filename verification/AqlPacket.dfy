/** AQL packets and kernel descriptors, as the capsule decodes them from captured bytes. */
module AqlPacket {
  import opened Bytes
  import opened Wrappers

  const PACKET_SIZE: nat := 64
  const DESCRIPTOR_SIZE: nat := 64
  const LEGACY_DESCRIPTOR_SIZE: nat := 256
  const KERNEL_DISPATCH: nat := 2
  const ADDRESS_SPACE: nat := 0x1_0000_0000_0000_0000

  datatype Dispatch = Dispatch(
    setup: nat,
    workgroup: (nat, nat, nat),
    reserved0: nat,
    grid: (nat, nat, nat),
    privateBytes: nat,
    groupBytes: nat,
    kernelObject: nat,
    kernargAddress: nat,
    reserved1: nat,
    completionSignal: nat)

  datatype Packet = Packet(packetType: nat, header: nat, digest: Digest<seq<byte>>, dispatch: Option<Dispatch>)

  /** The 15 fields after the header, `struct.unpack("<6H5I4Q")`. */
  function DispatchFields(p: seq<byte>): (d: Dispatch)
    requires |p| == PACKET_SIZE
  {
    Dispatch(
      LittleNumber(p, 2, 2), (LittleNumber(p, 4, 2), LittleNumber(p, 6, 2), LittleNumber(p, 8, 2)), LittleNumber(p, 10, 2),
      (LittleNumber(p, 12, 4), LittleNumber(p, 16, 4), LittleNumber(p, 20, 4)), LittleNumber(p, 24, 4), LittleNumber(p, 28, 4),
      LittleNumber(p, 32, 8), LittleNumber(p, 40, 8), LittleNumber(p, 48, 8), LittleNumber(p, 56, 8))
  }

  /** Bits 13 to 15 of the header, and all but the two dimension bits of the setup, are reserved. */
  predicate SoundDispatch(header: nat, d: Dispatch) {
    && header % 0x1_0000 / 0x2000 == 0 && d.setup / 4 == 0 && d.setup % 4 in {1, 2, 3}
    && d.reserved0 == 0 && d.reserved1 == 0
    && d.kernelObject != 0 && d.kernelObject % 64 == 0 && d.kernargAddress % 8 == 0
    && d.workgroup.0 > 0 && d.workgroup.1 > 0 && d.workgroup.2 > 0
    && d.grid.0 > 0 && d.grid.1 > 0 && d.grid.2 > 0
    && (d.setup % 4 < 2 ==> d.grid.1 == 1) && (d.setup % 4 < 3 ==> d.grid.2 == 1)
  }

  /** `decode_packet`. */
  function DecodePacket(p: seq<byte>, requireDispatch: bool): (r: Result<Packet, string>)
    ensures r.Success? ==> |p| == PACKET_SIZE && r.value.digest == Sha256(p)
    ensures r.Success? ==> (r.value.dispatch.Some? <==> r.value.packetType == KERNEL_DISPATCH)
    ensures r.Success? && requireDispatch ==> r.value.dispatch.Some?
  {
    if |p| != PACKET_SIZE then Failure("AQL packet is not 64 bytes")
    else
    var header := LittleNumber(p, 0, 2);
    var packet := Packet(header % 0x100, header, Sha256(p), None);
    if packet.packetType != KERNEL_DISPATCH then
      :- Need(!requireDispatch, "queue head packet is not a kernel dispatch");
      Success(packet)
    else
      var d := DispatchFields(p);
      :- Need(SoundDispatch(header, d), "AQL dispatch fields are invalid");
      Success(packet.(dispatch := Some(d)))
  }

  /** Two fields of one width hold the same number only if they are the same bytes. */
  lemma SameField(p: seq<byte>, q: seq<byte>, offset: nat, width: nat)
    requires offset + width <= |p| && offset + width <= |q| && LittleNumber(p, offset, width) == LittleNumber(q, offset, width)
    ensures p[offset..offset + width] == q[offset..offset + width]
  {
    PackLittleInvertsLittleEndian(p[offset..offset + width]);
    PackLittleInvertsLittleEndian(q[offset..offset + width]);
  }

  lemma SameHead(p: seq<byte>, q: seq<byte>)
    requires |p| == |q| == PACKET_SIZE && LittleNumber(p, 0, 2) == LittleNumber(q, 0, 2)
    requires DispatchFields(p) == DispatchFields(q)
    ensures p[0..12] == q[0..12]
  {
    SameField(p, q, 0, 2);
    SameField(p, q, 2, 2);
    SameField(p, q, 4, 2);
    SameField(p, q, 6, 2);
    SameField(p, q, 8, 2);
    SameField(p, q, 10, 2);
    assert p[0..12] == p[0..2] + p[2..4] + p[4..6] + p[6..8] + p[8..10] + p[10..12];
    assert q[0..12] == q[0..2] + q[2..4] + q[4..6] + q[6..8] + q[8..10] + q[10..12];
  }

  lemma SameSizes(p: seq<byte>, q: seq<byte>)
    requires |p| == |q| == PACKET_SIZE && DispatchFields(p) == DispatchFields(q)
    ensures p[12..32] == q[12..32]
  {
    SameField(p, q, 12, 4);
    SameField(p, q, 16, 4);
    SameField(p, q, 20, 4);
    SameField(p, q, 24, 4);
    SameField(p, q, 28, 4);
    assert p[12..32] == p[12..16] + p[16..20] + p[20..24] + p[24..28] + p[28..32];
    assert q[12..32] == q[12..16] + q[16..20] + q[20..24] + q[24..28] + q[28..32];
  }

  lemma SameAddresses(p: seq<byte>, q: seq<byte>)
    requires |p| == |q| == PACKET_SIZE && DispatchFields(p) == DispatchFields(q)
    ensures p[32..64] == q[32..64]
  {
    SameField(p, q, 32, 8);
    SameField(p, q, 40, 8);
    SameField(p, q, 48, 8);
    SameField(p, q, 56, 8);
    assert p[32..64] == p[32..40] + p[40..48] + p[48..56] + p[56..64];
    assert q[32..64] == q[32..40] + q[40..48] + q[48..56] + q[56..64];
  }

  lemma DecodedDispatch(p: seq<byte>)
    requires DecodePacket(p, true).Success?
    ensures |p| == PACKET_SIZE && DecodePacket(p, true).value.header == LittleNumber(p, 0, 2)
    ensures DecodePacket(p, true).value.dispatch == Some(DispatchFields(p))
  {
  }

  lemma SamePacket(p: seq<byte>, q: seq<byte>)
    requires |p| == |q| == PACKET_SIZE && LittleNumber(p, 0, 2) == LittleNumber(q, 0, 2) && DispatchFields(p) == DispatchFields(q)
    ensures p == q
  {
    SameHead(p, q);
    SameSizes(p, q);
    SameAddresses(p, q);
    assert p == p[0..12] + p[12..32] + p[32..64];
    assert q == q[0..12] + q[12..32] + q[32..64];
  }

  /** No byte of a dispatch packet is lost: its header and decoded fields alone determine all 64. */
  lemma FieldsDetermineDispatch(p: seq<byte>, q: seq<byte>)
    requires DecodePacket(p, true).Success? && DecodePacket(q, true).Success?
    requires DecodePacket(p, true).value.header == DecodePacket(q, true).value.header
    requires DecodePacket(p, true).value.dispatch == DecodePacket(q, true).value.dispatch
    ensures p == q
  {
    DecodedDispatch(p);
    DecodedDispatch(q);
    SamePacket(p, q);
  }

  // ----- Kernel descriptors -----

  /** The signed 64-bit number that the source reads with `<q`. */
  function Signed(p: seq<byte>, offset: nat): (n: int)
    requires offset + 8 <= |p|
    ensures 0 <= 2 * n + ADDRESS_SPACE && 2 * n < ADDRESS_SPACE
  {
    Spans();
    var n := LittleNumber(p, offset, 8);
    if 2 * n < ADDRESS_SPACE then n as int else (n as int) - ADDRESS_SPACE as int
  }

  /** `versioned_v2_descriptor`. */
  predicate VersionedV2(p: seq<byte>)
    requires |p| >= DESCRIPTOR_SIZE
  {
    && LittleNumber(p, 0, 4) == 1 && LittleNumber(p, 4, 4) <= 2
    && LittleNumber(p, 8, 2) == 1 && LittleNumber(p, 10, 2) == 9 && LittleNumber(p, 12, 2) == 5 && LittleNumber(p, 14, 2) == 0
  }

  datatype Descriptor = Descriptor(
    versioned: bool,
    size: nat,
    va: nat,
    groupBytes: nat,
    privateBytes: nat,
    kernargSize: nat,
    entryOffset: int,
    rawEntry: int,
    effectiveEntry: int,
    preloadLength: nat,
    preloadOffset: nat,
    preloadEnd: nat,
    kernargRead: nat,
    digest: Digest<seq<byte>>)

  predicate SoundDescriptor(d: Descriptor) {
    && 0 <= d.rawEntry <= d.effectiveEntry < ADDRESS_SPACE
    && (d.effectiveEntry == d.rawEntry <==> d.preloadLength == 0)
    && d.preloadEnd == d.preloadOffset + d.preloadLength
    && d.kernargRead == (if d.kernargSize != 0 then d.kernargSize else d.preloadEnd * 4)
    && d.kernargRead < 0x1_0000_0000
  }

  function Finish(p: seq<byte>, va: nat, versioned: bool, group: nat, private: nat, kernarg: nat, entry: int,
                  length: nat, offset: nat): (r: Result<Descriptor, string>)
  {
    var raw := va + entry;
    :- Need(0 <= raw < ADDRESS_SPACE, "descriptor entry relation overflows");
    var effective := raw + if length != 0 then 256 else 0;
    :- Need(effective < ADDRESS_SPACE, "effective entry overflows");
    var end := offset + length;
    Success(Descriptor(versioned, |p|, va, group, private, kernarg, entry, raw, effective, length, offset, end,
                       if kernarg != 0 then kernarg else end * 4, Sha256(p)))
  }

  lemma FinishSound(p: seq<byte>, va: nat, versioned: bool, group: nat, private: nat, kernarg: nat, entry: int,
                    length: nat, offset: nat)
    requires kernarg < 0x1_0000_0000 && length < 128 && offset < 512
    requires Finish(p, va, versioned, group, private, kernarg, entry, length, offset).Success?
    ensures var d := Finish(p, va, versioned, group, private, kernarg, entry, length, offset).value;
            SoundDescriptor(d) && d.va == va && d.size == |p| && d.digest == Sha256(p) && d.versioned == versioned
  {
  }

  /** `decode_descriptor`. */
  function DecodeDescriptor(p: seq<byte>, va: nat): (r: Result<Descriptor, string>) {
    if |p| < DESCRIPTOR_SIZE then Failure("kernel descriptor is shorter than 64 bytes")
    else if VersionedV2(p[..DESCRIPTOR_SIZE]) then
      :- Need(|p| == LEGACY_DESCRIPTOR_SIZE, "versioned code-object V2 descriptor is not 256 bytes");
      var entry := Signed(p, 16);
      :- Need(LittleNumber(p, 68, 4) == 0 && LittleNumber(p, 72, 8) < 0x1_0000_0000, "invalid code-object V2 descriptor");
      :- Need(entry >= LEGACY_DESCRIPTOR_SIZE && entry % 256 == 0, "invalid code-object V2 entry");
      Finish(p, va, true, LittleNumber(p, 64, 4), LittleNumber(p, 60, 4), LittleNumber(p, 72, 8), entry, 0, 0)
    else
      :- Need(|p| == DESCRIPTOR_SIZE, "code-object V3 descriptor is not 64 bytes");
      var preload := LittleNumber(p, 58, 2);
      Finish(p, va, false, LittleNumber(p, 0, 4), LittleNumber(p, 4, 4), LittleNumber(p, 8, 4), Signed(p, 16),
             preload % 128, preload / 128 % 512)
  }

  /**
   What an accepted descriptor guarantees: its size tells its kind, both entries
   are addresses, and the kernarg bytes the kernel reads follow from its own
   fields.
   */
  lemma DescriptorSound(p: seq<byte>, va: nat)
    requires DecodeDescriptor(p, va).Success?
    ensures var d := DecodeDescriptor(p, va).value;
            && d.va == va && d.size == |p| && d.digest == Sha256(p)
            && (d.versioned <==> |p| == LEGACY_DESCRIPTOR_SIZE) && (!d.versioned <==> |p| == DESCRIPTOR_SIZE)
            && SoundDescriptor(d)
  {
    Spans();
    if VersionedV2(p[..DESCRIPTOR_SIZE]) {
      FinishSound(p, va, true, LittleNumber(p, 64, 4), LittleNumber(p, 60, 4), LittleNumber(p, 72, 8), Signed(p, 16), 0, 0);
    } else {
      var preload := LittleNumber(p, 58, 2);
      FinishSound(p, va, false, LittleNumber(p, 0, 4), LittleNumber(p, 4, 4), LittleNumber(p, 8, 4), Signed(p, 16),
                  preload % 128, preload / 128 % 512);
    }
  }
}
