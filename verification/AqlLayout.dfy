/** The records that the capsule decodes, as a writer lays them out: one field after the other. */
module AqlLayout {
  import opened AqlPacket
  import opened Bytes
  import opened Wrappers

  /** A number and the bytes it takes. */
  datatype Field = Field(value: nat, width: nat) {
    ghost predicate Fits() {
      value < Span(width)
    }
  }

  ghost predicate AllFit(fields: seq<Field>) {
    forall k :: 0 <= k < |fields| ==> fields[k].Fits()
  }

  ghost function Written(fields: seq<Field>): (parts: seq<seq<byte>>)
    requires AllFit(fields)
    ensures |parts| == |fields| && forall k :: 0 <= k < |fields| ==> parts[k] == PackLittle(fields[k].value, fields[k].width)
  {
    seq(|fields|, k requires 0 <= k < |fields| => PackLittle(fields[k].value, fields[k].width))
  }

  /** Where field k starts. */
  function Start(fields: seq<Field>, k: nat): nat
    requires k <= |fields|
  {
    if k == 0 then 0 else Start(fields, k - 1) + fields[k - 1].width
  }

  lemma {:induction false} StartIsOffset(fields: seq<Field>, k: nat)
    requires AllFit(fields) && k <= |fields|
    ensures Offset(Written(fields), k) == Start(fields, k)
  {
    if k > 0 {
      StartIsOffset(fields, k - 1);
    }
  }

  /** The record starts with these fields. */
  ghost predicate Holds(p: seq<byte>, fields: seq<Field>) {
    AllFit(fields) && HoldsAt(p, 0, Written(fields))
  }

  lemma ReadsPart(p: seq<byte>, parts: seq<seq<byte>>, k: nat, offset: nat, f: Field)
    requires HoldsAt(p, 0, parts) && k < |parts| && offset == Offset(parts, k)
    requires f.Fits() && parts[k] == PackLittle(f.value, f.width)
    ensures offset + f.width <= |p| && LittleNumber(p, offset, f.width) == f.value
  {
    PartInside(p, 0, parts, k, offset, offset + f.width);
  }

  /** A field that was written is read at its place. */
  lemma ReadsField(p: seq<byte>, fields: seq<Field>, k: nat, offset: nat)
    requires Holds(p, fields) && k < |fields| && offset == Start(fields, k)
    ensures offset + fields[k].width <= |p| && LittleNumber(p, offset, fields[k].width) == fields[k].value
  {
    StartIsOffset(fields, k);
    assert fields[k].Fits();
    ReadsPart(p, Written(fields), k, offset, fields[k]);
  }

  // ----- Dispatch packets -----

  /** The header and the 15 fields of a kernel dispatch, in the order of the HSA packet. */
  function DispatchLayout(header: nat, d: Dispatch): seq<Field> {
    [Field(header, 2), Field(d.setup, 2),
     Field(d.workgroup.0, 2), Field(d.workgroup.1, 2), Field(d.workgroup.2, 2), Field(d.reserved0, 2),
     Field(d.grid.0, 4), Field(d.grid.1, 4), Field(d.grid.2, 4), Field(d.privateBytes, 4), Field(d.groupBytes, 4),
     Field(d.kernelObject, 8), Field(d.kernargAddress, 8), Field(d.reserved1, 8), Field(d.completionSignal, 8)]
  }

  lemma DispatchStarts(header: nat, d: Dispatch, f: seq<Field>)
    requires f == DispatchLayout(header, d)
    ensures Start(f, 0) == 0 && Start(f, 1) == 2 && Start(f, 2) == 4 && Start(f, 3) == 6 && Start(f, 4) == 8
    ensures Start(f, 5) == 10 && Start(f, 6) == 12 && Start(f, 7) == 16 && Start(f, 8) == 20 && Start(f, 9) == 24
    ensures Start(f, 10) == 28 && Start(f, 11) == 32 && Start(f, 12) == 40 && Start(f, 13) == 48 && Start(f, 14) == 56
  {
    assert Start(f, 1) == 2;
    assert Start(f, 2) == 4;
    assert Start(f, 3) == 6;
    assert Start(f, 4) == 8;
    assert Start(f, 5) == 10;
    assert Start(f, 6) == 12;
    assert Start(f, 7) == 16;
    assert Start(f, 8) == 20;
    assert Start(f, 9) == 24;
    assert Start(f, 10) == 28;
    assert Start(f, 11) == 32;
    assert Start(f, 12) == 40;
    assert Start(f, 13) == 48;
  }

  lemma DispatchIsRead(p: seq<byte>, header: nat, d: Dispatch, f: seq<Field>)
    requires |p| == PACKET_SIZE && f == DispatchLayout(header, d) && Holds(p, f)
    ensures LittleNumber(p, 0, 2) == header && DispatchFields(p) == d
  {
    DispatchStarts(header, d, f);
    ReadsField(p, f, 0, 0);
    ReadsField(p, f, 1, 2);
    ReadsField(p, f, 2, 4);
    ReadsField(p, f, 3, 6);
    ReadsField(p, f, 4, 8);
    ReadsField(p, f, 5, 10);
    ReadsField(p, f, 6, 12);
    ReadsField(p, f, 7, 16);
    ReadsField(p, f, 8, 20);
    ReadsField(p, f, 9, 24);
    ReadsField(p, f, 10, 28);
    ReadsField(p, f, 11, 32);
    ReadsField(p, f, 12, 40);
    ReadsField(p, f, 13, 48);
    ReadsField(p, f, 14, 56);
  }

  /** A kernel dispatch in one to three dimensions, aligned, and with clear reserved bits. */
  predicate IsDispatch(header: nat, d: Dispatch) {
    && header % 0x100 == KERNEL_DISPATCH && header < 0x2000
    && d.setup in {1, 2, 3} && d.reserved0 == 0 && d.reserved1 == 0
    && d.kernelObject > 0 && d.kernelObject % 64 == 0 && d.kernargAddress % 8 == 0
    && 0 !in {d.workgroup.0, d.workgroup.1, d.workgroup.2, d.grid.0, d.grid.1, d.grid.2}
    && (d.setup == 1 ==> d.grid.1 == 1) && (d.setup <= 2 ==> d.grid.2 == 1)
  }

  /** What a writer puts into a packet is what is decoded, and is accepted exactly when it is a dispatch. */
  lemma WrittenDispatchIsDecoded(p: seq<byte>, header: nat, d: Dispatch)
    requires |p| == PACKET_SIZE && Holds(p, DispatchLayout(header, d))
    ensures DecodePacket(p, true).Success? <==> IsDispatch(header, d)
    ensures IsDispatch(header, d) ==> DecodePacket(p, true) == Success(Packet(KERNEL_DISPATCH, header, Sha256(p), Some(d)))
  {
    DispatchIsRead(p, header, d, DispatchLayout(header, d));
    Spans();
  }

  /** A packet of another type is decoded only where no dispatch is required. */
  lemma OtherPacketIsDecoded(p: seq<byte>, header: nat, required: bool)
    requires |p| == PACKET_SIZE && Holds(p, [Field(header, 2)]) && header % 0x100 != KERNEL_DISPATCH
    ensures DecodePacket(p, required)
         == if required then Failure("queue head packet is not a kernel dispatch")
            else Success(Packet(header % 0x100, header, Sha256(p), None))
  {
    ReadsField(p, [Field(header, 2)], 0, 0);
  }


  // ----- Kernel descriptors -----

  /** The two's complement of a signed 64-bit number. */
  function Unsigned(n: int): nat
    requires -(ADDRESS_SPACE as int) <= 2 * n < ADDRESS_SPACE
  {
    if n < 0 then n + ADDRESS_SPACE else n
  }

  predicate IsSigned(n: int) {
    -(ADDRESS_SPACE as int) <= 2 * n < ADDRESS_SPACE
  }

  lemma ReadsSigned(p: seq<byte>, fields: seq<Field>, k: nat, offset: nat, n: int)
    requires Holds(p, fields) && k < |fields| && offset == Start(fields, k)
    requires IsSigned(n) && fields[k] == Field(Unsigned(n), 8)
    ensures offset + 8 <= |p| && Signed(p, offset) == n
  {
    ReadsField(p, fields, k, offset);
    Spans();
  }

  /** What a descriptor says of its kernel. */
  datatype Kernel = Kernel(groupBytes: nat, privateBytes: nat, kernargSize: nat, entry: int, preload: nat, preloadAt: nat)

  /** Both entries are addresses. */
  predicate EntriesFit(k: Kernel, va: nat) {
    && 0 <= va + k.entry
    && va + k.entry + (if k.preload == 0 then 0 else 256) < ADDRESS_SPACE
  }

  /** The decoded descriptor: a preloading kernel is entered 256 bytes later and reads at least what it preloads. */
  function Decoded(p: seq<byte>, k: Kernel, va: nat, versioned: bool): Descriptor {
    Descriptor(versioned, |p|, va, k.groupBytes, k.privateBytes, k.kernargSize, k.entry, va + k.entry,
               va + k.entry + if k.preload == 0 then 0 else 256, k.preload, k.preloadAt, k.preloadAt + k.preload,
               if k.kernargSize == 0 then 4 * (k.preloadAt + k.preload) else k.kernargSize, Sha256(p))
  }

  lemma FinishesExactly(p: seq<byte>, va: nat, versioned: bool, k: Kernel)
    ensures Finish(p, va, versioned, k.groupBytes, k.privateBytes, k.kernargSize, k.entry, k.preload, k.preloadAt).Success?
       <==> EntriesFit(k, va)
    ensures EntriesFit(k, va) ==>
              Finish(p, va, versioned, k.groupBytes, k.privateBytes, k.kernargSize, k.entry, k.preload, k.preloadAt)
              == Success(Decoded(p, k, va, versioned))
  {
  }

  /** Code object V3: 64 bytes, with a preload word of 7 bits of length below 9 bits of offset. */
  function DescriptorLayout(k: Kernel, gap0: nat, gap1: nat, gap2: nat): seq<Field>
    requires IsSigned(k.entry)
  {
    [Field(k.groupBytes, 4), Field(k.privateBytes, 4), Field(k.kernargSize, 4), Field(gap0, 4), Field(Unsigned(k.entry), 8),
     Field(gap1, 34), Field(k.preloadAt * 128 + k.preload, 2), Field(gap2, 4)]
  }

  /** Read as code object V2, this would be version 1.0 to 1.2 for machine 1, 9.5.0. */
  predicate LooksVersioned(k: Kernel, gap0: nat) {
    k.groupBytes == 1 && k.privateBytes <= 2 && k.kernargSize == 1 + 9 * 0x1_0000 && gap0 == 5
  }

  lemma DescriptorStarts(f: seq<Field>)
    requires |f| == 8 && f[0].width == 4 && f[1].width == 4 && f[2].width == 4 && f[3].width == 4 && f[4].width == 8
    requires f[5].width == 34 && f[6].width == 2
    ensures Start(f, 0) == 0 && Start(f, 1) == 4 && Start(f, 2) == 8 && Start(f, 3) == 12 && Start(f, 4) == 16
    ensures Start(f, 6) == 58
  {
    assert Start(f, 1) == 4;
    assert Start(f, 2) == 8;
    assert Start(f, 3) == 12;
    assert Start(f, 4) == 16;
    assert Start(f, 5) == 24;
  }

  /** Two adjacent fields are one of the double width. */
  lemma TwoFields(p: seq<byte>, offset: nat)
    requires offset + 4 <= |p|
    ensures LittleNumber(p, offset, 4) == LittleNumber(p, offset, 2) + 0x1_0000 * LittleNumber(p, offset + 2, 2)
  {
    var four, low, high := p[offset..offset + 4], p[offset..offset + 2], p[offset + 2..offset + 4];
    assert four[1..][1..] == high && low[1..] == [p[offset + 1]] && low[1..][1..] == [];
    assert LittleEndian(four) == four[0] as nat + 256 * (four[1..][0] as nat + 256 * LittleEndian(high));
    assert LittleEndian(low) == low[0] as nat + 256 * (low[1..][0] as nat + 256 * LittleEndian([]));
  }

  predicate ReadAs(p: seq<byte>, k: Kernel)
    requires |p| == DESCRIPTOR_SIZE
  {
    && LittleNumber(p, 0, 4) == k.groupBytes && LittleNumber(p, 4, 4) == k.privateBytes
    && LittleNumber(p, 8, 4) == k.kernargSize && Signed(p, 16) == k.entry
    && LittleNumber(p, 58, 2) == k.preloadAt * 128 + k.preload
  }

  lemma DescriptorIsRead(p: seq<byte>, k: Kernel, gap0: nat, gap1: nat, gap2: nat)
    requires |p| == DESCRIPTOR_SIZE && IsSigned(k.entry) && Holds(p, DescriptorLayout(k, gap0, gap1, gap2))
    ensures ReadAs(p, k) && LittleNumber(p, 12, 4) == gap0 && k.preloadAt * 128 + k.preload < 0x1_0000
  {
    var f := DescriptorLayout(k, gap0, gap1, gap2);
    DescriptorStarts(f);
    ReadsField(p, f, 0, 0);
    ReadsField(p, f, 1, 4);
    ReadsField(p, f, 2, 8);
    ReadsField(p, f, 3, 12);
    ReadsSigned(p, f, 4, 16, k.entry);
    ReadsField(p, f, 6, 58);
    Spans();
  }

  lemma NotVersioned(p: seq<byte>, k: Kernel, gap0: nat)
    requires |p| == DESCRIPTOR_SIZE && ReadAs(p, k) && LittleNumber(p, 12, 4) == gap0 && !LooksVersioned(k, gap0)
    ensures !VersionedV2(p)
  {
    TwoFields(p, 8);
    TwoFields(p, 12);
  }

  lemma DecodesRead(p: seq<byte>, va: nat, k: Kernel)
    requires |p| == DESCRIPTOR_SIZE && ReadAs(p, k) && !VersionedV2(p) && k.preload < 128
    requires k.preloadAt * 128 + k.preload < 0x1_0000
    ensures DecodeDescriptor(p, va) == Finish(p, va, false, k.groupBytes, k.privateBytes, k.kernargSize, k.entry, k.preload, k.preloadAt)
  {
    assert p[..DESCRIPTOR_SIZE] == p;
  }

  /** What is written into a V3 descriptor is what is decoded. */
  lemma WrittenDescriptorIsDecoded(p: seq<byte>, va: nat, k: Kernel, gap0: nat, gap1: nat, gap2: nat)
    requires |p| == DESCRIPTOR_SIZE && IsSigned(k.entry) && k.preload < 128 && Holds(p, DescriptorLayout(k, gap0, gap1, gap2))
    requires !LooksVersioned(k, gap0)
    ensures DecodeDescriptor(p, va).Success? <==> EntriesFit(k, va)
    ensures EntriesFit(k, va) ==> DecodeDescriptor(p, va) == Success(Decoded(p, k, va, false))
  {
    DescriptorIsRead(p, k, gap0, gap1, gap2);
    NotVersioned(p, k, gap0);
    DecodesRead(p, va, k);
    FinishesExactly(p, va, false, k);
  }

  /** Code object V2: 256 bytes, with its version and machine in front. */
  function LegacyLayout(k: Kernel, minor: nat, gap: nat, gds: nat, tail: nat): seq<Field>
    requires IsSigned(k.entry)
  {
    [Field(1, 4), Field(minor, 4), Field(1, 2), Field(9, 2), Field(5, 2), Field(0, 2), Field(Unsigned(k.entry), 8),
     Field(gap, 36), Field(k.privateBytes, 4), Field(k.groupBytes, 4), Field(gds, 4), Field(k.kernargSize, 8),
     Field(tail, 176)]
  }

  lemma LegacyStarts(k: Kernel, minor: nat, gap: nat, gds: nat, tail: nat, f: seq<Field>)
    requires IsSigned(k.entry) && f == LegacyLayout(k, minor, gap, gds, tail)
    ensures Start(f, 0) == 0 && Start(f, 1) == 4 && Start(f, 2) == 8 && Start(f, 3) == 10 && Start(f, 4) == 12
    ensures Start(f, 5) == 14 && Start(f, 6) == 16 && Start(f, 8) == 60 && Start(f, 9) == 64 && Start(f, 10) == 68
    ensures Start(f, 11) == 72
  {
    assert Start(f, 1) == 4;
    assert Start(f, 2) == 8;
    assert Start(f, 3) == 10;
    assert Start(f, 4) == 12;
    assert Start(f, 5) == 14;
    assert Start(f, 6) == 16;
    assert Start(f, 7) == 24;
    assert Start(f, 8) == 60;
    assert Start(f, 9) == 64;
    assert Start(f, 10) == 68;
  }

  predicate IsLegacy(k: Kernel, gds: nat) {
    gds == 0 && k.kernargSize <= 0xFFFF_FFFF && k.entry >= 256 && k.entry % 256 == 0 && k.preload == 0 && k.preloadAt == 0
  }

  predicate ReadAsLegacy(p: seq<byte>, k: Kernel, gds: nat)
    requires |p| == LEGACY_DESCRIPTOR_SIZE
  {
    && LittleNumber(p, 60, 4) == k.privateBytes && LittleNumber(p, 64, 4) == k.groupBytes
    && LittleNumber(p, 72, 8) == k.kernargSize && LittleNumber(p, 68, 4) == gds && Signed(p, 16) == k.entry
  }

  lemma LegacyIsRead(p: seq<byte>, k: Kernel, minor: nat, gap: nat, gds: nat, tail: nat)
    requires |p| == LEGACY_DESCRIPTOR_SIZE && IsSigned(k.entry) && minor <= 2 && Holds(p, LegacyLayout(k, minor, gap, gds, tail))
    ensures ReadAsLegacy(p, k, gds) && VersionedV2(p[..DESCRIPTOR_SIZE])
  {
    var f := LegacyLayout(k, minor, gap, gds, tail);
    LegacyStarts(k, minor, gap, gds, tail, f);
    ReadsField(p, f, 0, 0);
    ReadsField(p, f, 1, 4);
    ReadsField(p, f, 2, 8);
    ReadsField(p, f, 3, 10);
    ReadsField(p, f, 4, 12);
    ReadsField(p, f, 5, 14);
    ReadsSigned(p, f, 6, 16, k.entry);
    ReadsField(p, f, 8, 60);
    ReadsField(p, f, 9, 64);
    ReadsField(p, f, 10, 68);
    ReadsField(p, f, 11, 72);
    HeadIsVersioned(p);
  }

  lemma DecodesLegacy(p: seq<byte>, va: nat, k: Kernel, gds: nat)
    requires |p| == LEGACY_DESCRIPTOR_SIZE && ReadAsLegacy(p, k, gds) && VersionedV2(p[..DESCRIPTOR_SIZE])
    requires k.preload == 0 && k.preloadAt == 0
    ensures DecodeDescriptor(p, va).Success? ==> IsLegacy(k, gds)
    ensures IsLegacy(k, gds) ==>
              DecodeDescriptor(p, va) == Finish(p, va, true, k.groupBytes, k.privateBytes, k.kernargSize, k.entry, k.preload, k.preloadAt)
  {
  }

  /** What is written into a V2 descriptor is what is decoded. */
  lemma WrittenLegacyIsDecoded(p: seq<byte>, va: nat, k: Kernel, minor: nat, gap: nat, gds: nat, tail: nat)
    requires |p| == LEGACY_DESCRIPTOR_SIZE && IsSigned(k.entry) && k.preload == 0 && k.preloadAt == 0 && minor <= 2
    requires Holds(p, LegacyLayout(k, minor, gap, gds, tail))
    ensures DecodeDescriptor(p, va).Success? <==> IsLegacy(k, gds) && EntriesFit(k, va)
    ensures IsLegacy(k, gds) && EntriesFit(k, va) ==> DecodeDescriptor(p, va) == Success(Decoded(p, k, va, true))
  {
    LegacyIsRead(p, k, minor, gap, gds, tail);
    DecodesLegacy(p, va, k, gds);
    FinishesExactly(p, va, true, k);
  }

  lemma HeadIsVersioned(p: seq<byte>)
    requires |p| >= DESCRIPTOR_SIZE
    ensures VersionedV2(p[..DESCRIPTOR_SIZE])
       <==> && LittleNumber(p, 0, 4) == 1 && LittleNumber(p, 4, 4) <= 2 && LittleNumber(p, 8, 2) == 1
            && LittleNumber(p, 10, 2) == 9 && LittleNumber(p, 12, 2) == 5 && LittleNumber(p, 14, 2) == 0
  {
    var head := p[..DESCRIPTOR_SIZE];
    assert head[0..4] == p[0..4] && head[4..8] == p[4..8] && head[8..10] == p[8..10];
    assert head[10..12] == p[10..12] && head[12..14] == p[12..14] && head[14..16] == p[14..16];
  }
}
