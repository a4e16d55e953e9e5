/** When the readings of `capture` succeed, told from the words that are read. */
module CapsuleReadings {
  import AqlLayout
  import opened AqlPacket
  import opened AqlQueue
  import opened Bytes
  import opened CapsuleCapture
  import opened CapsuleDocument
  import opened KmtRegistry
  import opened Wrappers

  /** Slot n of the ring can be read and holds a packet. */
  predicate PacketThere(m: Reader, q: Queue, n: nat, required: bool)
    requires q.ringBytes >= 64
  {
    var b := m.read(q.ringVa + 64 * (n % (q.ringBytes / 64)), 64);
    b.Some? && DecodePacket(b.value.bytes, required).Success?
  }

  /** The six numbers in front of a code object V2 descriptor. */
  predicate IsV2(p: seq<byte>)
    requires |p| >= 16
  {
    && LittleNumber(p, 0, 4) == 1 && LittleNumber(p, 4, 4) <= 2 && LittleNumber(p, 8, 2) == 1
    && LittleNumber(p, 10, 2) == 9 && LittleNumber(p, 12, 2) == 5 && LittleNumber(p, 14, 2) == 0
  }

  /** The descriptor in this block, in whole, with its entry in the allocation it lies in. */
  predicate HoldsKernel(b: Option<Block>, va: nat) {
    && b.Some? && DecodeDescriptor(b.value.bytes, va).Success?
    && var entry := DecodeDescriptor(b.value.bytes, va).value.effectiveEntry;
       b.value.owner.va <= entry < b.value.owner.va + b.value.owner.bytes
  }

  /** A descriptor of either kind, as long as its first bytes say. */
  predicate KernelThere(m: Reader, va: nat) {
    var prefix := m.read(va, 64);
    && prefix.Some? && |prefix.value.bytes| >= 64
    && HoldsKernel(if IsV2(prefix.value.bytes) then m.read(va, 256) else prefix, va)
  }

  /** The kernarg that the kernel reads, or one byte of it, within the budget. */
  predicate KernargThere(m: Reader, va: nat, wanted: nat, most: nat) {
    && (wanted > 0 ==> va > 0 && wanted <= most && m.read(va, wanted).Some?)
    && (wanted == 0 && va > 0 ==> 1 <= most && m.read(va, 1).Some?)
  }

  /** The queue state agrees with the queue and its frontiers, and what it points to is there. */
  predicate StateThere(m: Reader, q: Queue, f: Frontiers) {
    && q.readPointer >= 128 && q.writePointer == q.readPointer - 72
    && var state := m.read(q.readPointer - 128, 256);
       && state.Some? && |state.value.bytes| == 256
       && var b := state.value.bytes;
          var scratch, size, inactive := LittleNumber(b, 160, 8), LittleNumber(b, 168, 8), LittleNumber(b, 192, 8);
          && LittleNumber(b, 136, 4) == 128
          && LittleNumber(b, 128, 8) == f.producerRead && LittleNumber(b, 56, 8) == f.producerReserved
          && (if scratch == 0 then size == 0 else size != 0 && m.resolve(scratch, size).Some?)
          && (inactive != 0 ==> m.resolve(inactive, 64).Some?)
  }

  lemma PacketThereExactly(m: Reader, q: Queue, n: nat, required: bool)
    requires q.ringBytes >= 64
    ensures ReadPacket(m, q, n, required).Success? <==> PacketThere(m, q, n, required)
    ensures ReadPacket(m, q, n, required).Success? ==>
              && m.read(q.ringVa + 64 * (n % (q.ringBytes / 64)), 64) == Some(ReadPacket(m, q, n, required).value.block)
              && DecodePacket(ReadPacket(m, q, n, required).value.block.bytes, required)
                 == Success(ReadPacket(m, q, n, required).value.packet)
  {
    assert SlotVa(q.ringVa, q.ringBytes, n) == q.ringVa + 64 * (n % (q.ringBytes / 64));
  }

  lemma DecodedExactly(b: Block, va: nat)
    ensures Decoded(b, va).Success? <==> HoldsKernel(Some(b), va)
  {
  }

  lemma KernelThereExactly(m: Reader, va: nat)
    ensures ReadCode(m, va).Success? <==> KernelThere(m, va)
  {
    var prefix := m.read(va, 64);
    if prefix.Some? && |prefix.value.bytes| >= 64 {
      var p := prefix.value.bytes;
      AqlLayout.HeadIsVersioned(p);
      SamePrefix(p);
      DecodedExactly(prefix.value, va);
      var whole := m.read(va, 256);
      if whole.Some? {
        DecodedExactly(whole.value, va);
      }
    }
  }

  lemma SamePrefix(p: seq<byte>)
    requires |p| >= 64
    ensures VersionedV2(p[..64]) == VersionedV2(p)
  {
    assert p[..64][0..4] == p[0..4] && p[..64][4..8] == p[4..8] && p[..64][8..10] == p[8..10];
    assert p[..64][10..12] == p[10..12] && p[..64][12..14] == p[12..14] && p[..64][14..16] == p[14..16];
  }

  lemma KernargThereExactly(m: Reader, va: nat, d: Descriptor, most: nat)
    ensures ReadKernarg(m, va, d, most).Success? <==> KernargThere(m, va, d.kernargRead, most)
  {
  }

  lemma StateThereExactly(m: Reader, q: Queue, f: Frontiers)
    ensures ReadMqd(m, q, f).Success? <==> StateThere(m, q, f)
  {
  }

  /** The words of the packet that lead on. */
  predicate ResourcesThere(m: Readers, packet: seq<byte>, most: nat)
    requires |packet| == 64
  {
    var code, kernarg, signal := LittleNumber(packet, 32, 8), LittleNumber(packet, 40, 8), LittleNumber(packet, 56, 8);
    && KernelThere(m.code, code)
    && KernargThere(m.kernarg, kernarg, KernelOf(m.code, code).kernargRead, most)
    && (signal > 0 ==> m.signal.read(signal, 64).Some?)
  }

  /** The descriptor that is there. */
  function KernelOf(m: Reader, va: nat): (d: Descriptor)
    requires KernelThere(m, va)
  {
    var prefix := m.read(va, 64);
    DecodeDescriptor((if IsV2(prefix.value.bytes) then m.read(va, 256) else prefix).value.bytes, va).value
  }

  lemma KernelIs(m: Reader, va: nat)
    requires ReadCode(m, va).Success?
    ensures KernelThere(m, va) && ReadCode(m, va).value.descriptor == KernelOf(m, va)
  {
    KernelThereExactly(m, va);
    var p := m.read(va, 64).value.bytes;
    AqlLayout.HeadIsVersioned(p);
    SamePrefix(p);
  }

  lemma ResourcesDecide(m: Readers, d: Dispatch, l: Limits)
    ensures ReadResources(m, d, l).Success? <==>
              && ReadCode(m.code, d.kernelObject).Success?
              && ReadKernarg(m.kernarg, d.kernargAddress, ReadCode(m.code, d.kernelObject).value.descriptor, l.kernarg).Success?
              && (d.completionSignal > 0 ==> m.signal.read(d.completionSignal, 64).Some?)
  {
  }

  lemma ResourcesThereExactly(m: Readers, packet: seq<byte>, d: Dispatch, l: Limits)
    requires |packet| == 64 && d == DispatchFields(packet)
    ensures ReadResources(m, d, l).Success? <==> ResourcesThere(m, packet, l.kernarg)
  {
    ResourcesDecide(m, d, l);
    KernelThereExactly(m.code, d.kernelObject);
    if ReadCode(m.code, d.kernelObject).Success? {
      KernelIs(m.code, d.kernelObject);
      KernargThereExactly(m.kernarg, d.kernargAddress, KernelOf(m.code, d.kernelObject), l.kernarg);
    }
  }

  /** The packet behind the first one is there when it was published. */
  predicate NextThere(m: Reader, q: Queue, f: Frontiers)
    requires q.ringBytes >= 64
  {
    f.completion + 1 < f.published ==> PacketThere(m, q, f.completion + 1, false)
  }

  /** This packet is the first that is published but not retired. */
  predicate IsHead(m: Reader, q: Queue, f: Frontiers, packet: seq<byte>)
    requires q.ringBytes >= 64
    ensures IsHead(m, q, f, packet) ==> |packet| == 64
  {
    var b := m.read(q.ringVa + 64 * (f.completion % (q.ringBytes / 64)), 64);
    b.Some? && b.value.bytes == packet && DecodePacket(packet, true).Success?
  }

  /** Everything that `capture` needs of a queue is there. */
  ghost predicate AllThere(m: Readers, q: Queue, f: Frontiers, most: nat)
    requires q.ringBytes >= 64
  {
    && NextThere(m.next, q, f) && StateThere(m.mqd, q, f)
    && exists packet :: IsHead(m.head, q, f, packet) && ResourcesThere(m, packet, most)
  }

  lemma ObservedFrom(parts: Parts, d: Dispatch, head: bool, next: bool, resources: bool, state: bool)
    requires parts.head.Success? <==> head
    requires parts.next.Success? <==> next
    requires head ==> parts.head.value.packet.dispatch == Some(d)
    requires head ==> (parts.resources(d).Success? <==> resources)
    requires parts.mqd.Success? <==> state
    ensures Observe(parts).Success? <==> head && next && resources && state
  {
  }

  lemma NextThereExactly(m: Reader, q: Queue, f: Frontiers)
    requires q.ringBytes >= 64
    ensures ReadNext(m, q, f).Success? <==> NextThere(m, q, f)
  {
    PacketThereExactly(m, q, f.completion + 1, false);
  }

  lemma LedFrom(m: Readers, bytes: seq<byte>, p: Packet, l: Limits)
    requires DecodePacket(bytes, true) == Success(p)
    ensures |bytes| == 64 && p.dispatch.Some?
    ensures ReadResources(m, p.dispatch.value, l).Success? <==> ResourcesThere(m, bytes, l.kernarg)
  {
    DecodedDispatch(bytes);
    ResourcesThereExactly(m, bytes, p.dispatch.value, l);
  }

  lemma HeadIs(m: Reader, q: Queue, f: Frontiers, packet: seq<byte>)
    requires q.ringBytes >= 64
    ensures IsHead(m, q, f, packet) <==>
              && ReadPacket(m, q, f.completion, true).Success?
              && ReadPacket(m, q, f.completion, true).value.block.bytes == packet
  {
    PacketThereExactly(m, q, f.completion, true);
  }

  lemma ObservedParts(parts: Parts, m: Readers, q: Queue, f: Frontiers, l: Limits)
    requires q.ringBytes >= 64 && parts.head == ReadPacket(m.head, q, f.completion, true)
    requires parts.next == ReadNext(m.next, q, f) && parts.mqd == ReadMqd(m.mqd, q, f)
    requires forall d :: parts.resources(d) == ReadResources(m, d, l)
    ensures Observe(parts).Success? <==> AllThere(m, q, f, l.kernarg)
  {
    NextThereExactly(m.next, q, f);
    StateThereExactly(m.mqd, q, f);
    forall packet
      ensures IsHead(m.head, q, f, packet) <==> parts.head.Success? && parts.head.value.block.bytes == packet
    {
      HeadIs(m.head, q, f, packet);
    }
    if parts.head.Success? {
      var h := parts.head.value;
      PacketThereExactly(m.head, q, f.completion, true);
      LedFrom(m, h.block.bytes, h.packet, l);
      ObservedFrom(parts, h.packet.dispatch.value, true, NextThere(m.next, q, f), ResourcesThere(m, h.block.bytes, l.kernarg),
                   StateThere(m.mqd, q, f));
    }
  }

  /** `capture` gets through its readings exactly when everything it needs is there. */
  lemma ObservedExactly(m: Readers, q: Queue, f: Frontiers, l: Limits)
    requires q.ringBytes >= 64
    ensures Observe(PartsOf(m, q, f, l)).Success? <==> AllThere(m, q, f, l.kernarg)
  {
    ObservedParts(PartsOf(m, q, f, l), m, q, f, l);
  }
}
