/** Building a failure capsule from the selected queue on, and why `verify` accepts it. */
module CapsuleCapture {
  import opened AqlPacket
  import opened AqlQueue
  import opened Bytes
  import opened CapsuleDocument
  import opened CapsuleFiles
  import opened CapsuleRoles
  import opened KmtRegistry
  import opened Wrappers

  // ----- What capture reads -----

  datatype Block = Block(bytes: seq<byte>, owner: Allocation)

  /** GPU memory as `capture` uses it: reading a range, and finding the allocation that holds one. */
  datatype Reader = Reader(read: (nat, nat) -> Option<Block>, resolve: (nat, nat) -> Option<Allocation>)

  ghost predicate Reads(reader: Reader, registry: Registry) {
    && (forall va, count {:trigger reader.read(va, count)} ::
          reader.read(va, count).Some? ==>
            && |reader.read(va, count).value.bytes| == count
            && reader.read(va, count).value.owner in registry.allocations)
    && (forall va, count {:trigger reader.resolve(va, count)} ::
          reader.resolve(va, count).Some? ==> reader.resolve(va, count).value in registry.allocations)
  }

  /** A packet read from its ring slot. */
  datatype Head = Head(va: nat, block: Block, packet: Packet)

  function ReadPacket(m: Reader, q: Queue, index: nat, requireDispatch: bool): (r: Result<Head, string>)
    requires q.ringBytes >= PACKET_BYTES
    ensures r.Success? && requireDispatch ==> r.value.packet.dispatch.Some?
  {
    var va := SlotVa(q.ringVa, q.ringBytes, index);
    var block := m.read(va, PACKET_BYTES);
    :- Need(block.Some?, "AQL packet is unreadable");
    var packet :- DecodePacket(block.value.bytes, requireDispatch);
    Success(Head(va, block.value, packet))
  }

  datatype Code = Code(block: Block, descriptor: Descriptor)

  function Decoded(block: Block, va: nat): (r: Result<Code, string>)
    ensures r.Success? ==>
              && r.value.block == block
              && DecodeDescriptor(block.bytes, va) == Success(r.value.descriptor)
              && block.owner.Contains(r.value.descriptor.effectiveEntry, 1)
  {
    var descriptor :- DecodeDescriptor(block.bytes, va);
    :- Need(block.owner.Contains(descriptor.effectiveEntry, 1), "kernel entry is outside the resident code allocation");
    Success(Code(block, descriptor))
  }

  /** The descriptor: 64 bytes, or 256 when those are a versioned V2 prefix. */
  function ReadCode(m: Reader, va: nat): (r: Result<Code, string>)
    ensures r.Success? ==>
              && DecodeDescriptor(r.value.block.bytes, va) == Success(r.value.descriptor)
              && (m.read(va, DESCRIPTOR_SIZE) == Some(r.value.block) || m.read(va, LEGACY_DESCRIPTOR_SIZE) == Some(r.value.block))
  {
    var prefix := m.read(va, DESCRIPTOR_SIZE);
    :- Need(prefix.Some? && |prefix.value.bytes| >= DESCRIPTOR_SIZE, "kernel descriptor is unreadable");
    if !VersionedV2(prefix.value.bytes) then Decoded(prefix.value, va)
    else
      var whole := m.read(va, LEGACY_DESCRIPTOR_SIZE);
      :- Need(whole.Some?, "code-object V2 descriptor is unreadable");
      Decoded(whole.value, va)
  }

  /** Some bytes, or none where there is nothing to read. */
  function ReadOptional(m: Reader, va: nat, count: nat): (r: Result<Option<Block>, string>) {
    if count == 0 then Success(None)
    else
      var block := m.read(va, count);
      :- Need(block.Some?, "memory is unreadable");
      Success(block)
  }

  function ReadKernarg(m: Reader, va: nat, d: Descriptor, most: nat): (r: Result<Option<Block>, string>) {
    var count := KernargCapture(d, va);
    :- Need(count <= most, "kernarg exceeds capture budget");
    :- Need(count == 0 || va != 0, "descriptor requires a missing kernarg");
    ReadOptional(m, va, count)
  }

  function ResolveOptional(m: Reader, va: nat, count: nat): (r: Result<Option<Allocation>, string>) {
    if va == 0 then Success(None)
    else
      var a := m.resolve(va, count);
      :- Need(a.Some?, "range is outside every observed KMT allocation");
      Success(a)
  }

  datatype MqdState = MqdState(va: nat, block: Block, scratch: Option<Allocation>, inactive: Option<Allocation>)

  predicate MqdAgrees(mqd: seq<byte>, q: Queue, f: Frontiers)
    requires |mqd| == MQD_SIZE
  {
    && LittleNumber(mqd, 136, 4) == MQD_READ_INDEX_OFFSET
    && LittleNumber(mqd, 128, 8) == f.producerRead && LittleNumber(mqd, 56, 8) == f.producerReserved
    && q.readPointer >= MQD_READ_INDEX_OFFSET && q.writePointer == q.readPointer - MQD_READ_INDEX_OFFSET + 56
    && (LittleNumber(mqd, 160, 8) != 0 <==> LittleNumber(mqd, 168, 8) != 0)
  }

  function ReadMqd(m: Reader, q: Queue, f: Frontiers): (r: Result<MqdState, string>)
    ensures r.Success? ==>
              && |r.value.block.bytes| == MQD_SIZE && MqdAgrees(r.value.block.bytes, q, f)
              && r.value.va + MQD_READ_INDEX_OFFSET == q.readPointer
  {
    if q.readPointer < MQD_READ_INDEX_OFFSET then Failure("MQD base underflows")
    else
    var base := q.readPointer - MQD_READ_INDEX_OFFSET;
    var block := m.read(base, MQD_SIZE);
    :- Need(block.Some? && |block.value.bytes| == MQD_SIZE, "MQD is unreadable");
    var mqd := block.value.bytes;
    :- Need(MqdAgrees(mqd, q, f), "MQD differs from queue controls");
    var scratch :- ResolveOptional(m, LittleNumber(mqd, 160, 8), LittleNumber(mqd, 168, 8));
    var inactive :- ResolveOptional(m, LittleNumber(mqd, 192, 8), SIGNAL_SIZE);
    Success(MqdState(base, block.value, scratch, inactive))
  }

  function ReadNext(m: Reader, q: Queue, f: Frontiers): (r: Result<Option<Head>, string>)
    requires q.ringBytes >= PACKET_BYTES
  {
    if f.completion + 1 < f.published then
      var next :- ReadPacket(m, q, f.completion + 1, false);
      Success(Some(next))
    else Success(None)
  }

  /** What the packet's pointers lead to. */
  datatype Resources = Resources(code: Code, kernarg: Option<Block>, signal: Option<Block>)

  /** One reader for each thing that is read, because memory may change from one reading to the next. */
  datatype Readers =
    Readers(head: Reader, next: Reader, code: Reader, kernarg: Reader, signal: Reader, mqd: Reader)

  ghost predicate AllRead(m: Readers, registry: Registry) {
    && Reads(m.head, registry) && Reads(m.next, registry) && Reads(m.code, registry)
    && Reads(m.kernarg, registry) && Reads(m.signal, registry) && Reads(m.mqd, registry)
  }

  function ReadResources(m: Readers, d: Dispatch, l: Limits): (r: Result<Resources, string>) {
    var code :- ReadCode(m.code, d.kernelObject);
    var kernarg :- ReadKernarg(m.kernarg, d.kernargAddress, code.descriptor, l.kernarg);
    var signal :- ReadOptional(m.signal, d.completionSignal, if d.completionSignal != 0 then SIGNAL_SIZE else 0);
    Success(Resources(code, kernarg, signal))
  }

  datatype Observation = Observation(head: Head, next: Option<Head>, resources: Resources, mqd: MqdState)

  /** The four parts of an observation, each of which may be unreadable. */
  datatype Parts = Parts(
    head: Result<Head, string>,
    next: Result<Option<Head>, string>,
    resources: Dispatch -> Result<Resources, string>,
    mqd: Result<MqdState, string>)

  function PartsOf(m: Readers, q: Queue, f: Frontiers, l: Limits): (parts: Parts)
    requires q.ringBytes >= PACKET_BYTES
  {
    Parts(ReadPacket(m.head, q, f.completion, true), ReadNext(m.next, q, f), d => ReadResources(m, d, l),
          ReadMqd(m.mqd, q, f))
  }

  /** Everything `capture` reads about the first packet that is published but not retired. */
  function Observe(parts: Parts): (r: Result<Observation, string>)
    ensures r.Success? ==>
              && parts.head == Success(r.value.head) && parts.next == Success(r.value.next)
              && r.value.head.packet.dispatch.Some?
              && parts.resources(r.value.head.packet.dispatch.value) == Success(r.value.resources)
              && parts.mqd == Success(r.value.mqd)
  {
    var head :- parts.head;
    var next :- parts.next;
    :- Need(head.packet.dispatch.Some?, "queue head is not a kernel dispatch");
    var resources :- parts.resources(head.packet.dispatch.value);
    var mqd :- parts.mqd;
    Success(Observation(head, next, resources, mqd))
  }

  // ----- What the readings guarantee -----

  lemma HeadFacts(m: Reader, registry: Registry, q: Queue, index: nat, requireDispatch: bool)
    requires q.ringBytes >= PACKET_BYTES && Reads(m, registry) && ReadPacket(m, q, index, requireDispatch).Success?
    ensures var h := ReadPacket(m, q, index, requireDispatch).value;
            && h.va == SlotVa(q.ringVa, q.ringBytes, index)
            && m.read(h.va, PACKET_BYTES) == Some(h.block)
            && h.block.owner in registry.allocations
            && DecodePacket(h.block.bytes, requireDispatch) == Success(h.packet)
  {
  }

  lemma CodeFacts(m: Reader, registry: Registry, va: nat)
    requires Reads(m, registry) && ReadCode(m, va).Success?
    ensures var c := ReadCode(m, va).value;
            && (|c.block.bytes| == DESCRIPTOR_SIZE || |c.block.bytes| == LEGACY_DESCRIPTOR_SIZE)
            && m.read(va, |c.block.bytes|) == Some(c.block)
            && c.block.owner in registry.allocations
            && DecodeDescriptor(c.block.bytes, va) == Success(c.descriptor)
  {
  }

  lemma OptionalFacts(m: Reader, registry: Registry, va: nat, count: nat)
    requires Reads(m, registry) && ReadOptional(m, va, count).Success?
    ensures var b := ReadOptional(m, va, count).value;
            && (b.Some? <==> count > 0)
            && (b.Some? ==> |b.value.bytes| == count && b.value.owner in registry.allocations)
  {
  }

  lemma MqdFacts(m: Reader, registry: Registry, q: Queue, f: Frontiers)
    requires Reads(m, registry) && ReadMqd(m, q, f).Success?
    ensures var s := ReadMqd(m, q, f).value;
            && s.block.owner in registry.allocations
            && (s.scratch.Some? ==> s.scratch.value in registry.allocations)
            && (s.inactive.Some? ==> s.inactive.value in registry.allocations)
  {
  }

  /** Where everything observed lies. */
  ghost predicate Located(o: Observation, registry: Registry, q: Queue, f: Frontiers) {
    && q.ringBytes >= PACKET_BYTES
    && o.head.va == SlotVa(q.ringVa, q.ringBytes, f.completion)
    && o.head.block.owner in registry.allocations
    && (o.next.Some? <==> f.completion + 1 < f.published)
    && (o.next.Some? ==>
          && o.next.value.va == SlotVa(q.ringVa, q.ringBytes, f.completion + 1)
          && o.next.value.block.owner in registry.allocations)
    && o.resources.code.block.owner in registry.allocations
    && (o.resources.kernarg.Some? ==> o.resources.kernarg.value.owner in registry.allocations)
    && (o.resources.signal.Some? ==> o.resources.signal.value.owner in registry.allocations)
    && |o.mqd.block.bytes| == MQD_SIZE && MqdAgrees(o.mqd.block.bytes, q, f)
    && o.mqd.block.owner in registry.allocations
    && (o.mqd.scratch.Some? ==> o.mqd.scratch.value in registry.allocations)
    && (o.mqd.inactive.Some? ==> o.mqd.inactive.value in registry.allocations)
  }

  /** What the observed bytes decode to, and how much of them there is. */
  ghost predicate Interpreted(o: Observation) {
    && DecodePacket(o.head.block.bytes, true) == Success(o.head.packet)
    && o.head.packet.dispatch.Some?
    && (o.next.Some? ==> DecodePacket(o.next.value.block.bytes, false) == Success(o.next.value.packet))
    && var d := o.head.packet.dispatch.value;
       && DecodeDescriptor(o.resources.code.block.bytes, d.kernelObject) == Success(o.resources.code.descriptor)
       && Sized(o.resources.kernarg, KernargCapture(o.resources.code.descriptor, d.kernargAddress))
       && Sized(o.resources.signal, if d.completionSignal != 0 then SIGNAL_SIZE else 0)
  }

  predicate Sized(b: Option<Block>, count: nat) {
    (b.Some? <==> count > 0) && (b.Some? ==> |b.value.bytes| == count)
  }

  ghost predicate SoundResources(s: Resources, registry: Registry, d: Dispatch) {
    && s.code.block.owner in registry.allocations
    && DecodeDescriptor(s.code.block.bytes, d.kernelObject) == Success(s.code.descriptor)
    && SoundBlock(s.kernarg, registry, KernargCapture(s.code.descriptor, d.kernargAddress))
    && SoundBlock(s.signal, registry, if d.completionSignal != 0 then SIGNAL_SIZE else 0)
  }

  ghost predicate SoundBlock(b: Option<Block>, registry: Registry, count: nat) {
    && (b.Some? <==> count > 0)
    && (b.Some? ==> |b.value.bytes| == count && b.value.owner in registry.allocations)
  }

  lemma ResourcesAreSound(m: Readers, registry: Registry, d: Dispatch, l: Limits)
    requires AllRead(m, registry) && ReadResources(m, d, l).Success?
    ensures SoundResources(ReadResources(m, d, l).value, registry, d)
  {
    CodeFacts(m.code, registry, d.kernelObject);
    var code := ReadCode(m.code, d.kernelObject).value;
    OptionalFacts(m.kernarg, registry, d.kernargAddress, KernargCapture(code.descriptor, d.kernargAddress));
    OptionalFacts(m.signal, registry, d.completionSignal, if d.completionSignal != 0 then SIGNAL_SIZE else 0);
  }

  lemma ObservationIsSound(m: Readers, registry: Registry, q: Queue, f: Frontiers, l: Limits, o: Observation)
    requires q.ringBytes >= PACKET_BYTES && AllRead(m, registry)
    requires Observe(PartsOf(m, q, f, l)) == Success(o)
    ensures Located(o, registry, q, f) && Interpreted(o)
  {
    var parts := PartsOf(m, q, f, l);
    assert parts.head == Success(o.head) && parts.next == Success(o.next) && parts.mqd == Success(o.mqd);
    HeadFacts(m.head, registry, q, f.completion, true);
    NextFacts(m.next, registry, q, f);
    ResourcesAreSound(m, registry, o.head.packet.dispatch.value, l);
    MqdFacts(m.mqd, registry, q, f);
  }

  lemma ObservedCode(m: Readers, q: Queue, f: Frontiers, l: Limits, o: Observation)
    requires q.ringBytes >= PACKET_BYTES && Observe(PartsOf(m, q, f, l)) == Success(o)
    ensures o.head.packet.dispatch.Some?
    ensures ReadCode(m.code, o.head.packet.dispatch.value.kernelObject) == Success(o.resources.code)
  {
    var parts := PartsOf(m, q, f, l);
    assert parts.resources(o.head.packet.dispatch.value) == Success(o.resources);
    CodeOfResources(m, o.head.packet.dispatch.value, l);
  }

  lemma CodeOfResources(m: Readers, d: Dispatch, l: Limits)
    requires ReadResources(m, d, l).Success?
    ensures ReadCode(m.code, d.kernelObject) == Success(ReadResources(m, d, l).value.code)
  {
  }

  lemma NextFacts(m: Reader, registry: Registry, q: Queue, f: Frontiers)
    requires q.ringBytes >= PACKET_BYTES && Reads(m, registry) && ReadNext(m, q, f).Success?
    ensures var h := ReadNext(m, q, f).value;
            && (h.Some? <==> f.completion + 1 < f.published)
            && (h.Some? ==>
                  && h.value.va == SlotVa(q.ringVa, q.ringBytes, f.completion + 1)
                  && h.value.block.owner in registry.allocations
                  && DecodePacket(h.value.block.bytes, false) == Success(h.value.packet))
  {
    if f.completion + 1 < f.published {
      HeadFacts(m, registry, q, f.completion + 1, false);
    }
  }

  // ----- The roles of an observation -----

  function KernargRole(d: Descriptor): Role {
    if d.kernargRead != 0 then Kernarg else KernargProbe
  }

  function OwnerOf(b: Option<Block>): Option<Allocation> {
    if b.Some? then Some(b.value.owner) else None
  }

  function PayloadOf(b: Option<Block>): seq<byte> {
    if b.Some? then b.value.bytes else []
  }

  /** The roles before the kernarg words are scanned. */
  function BaseRoles(o: Observation): Roles {
    var ring := WithRole(map[], o.head.block.owner, QueueRing);
    var both := WithOptional(ring, if o.next.Some? then Some(o.next.value.block.owner) else None, QueueRing);
    var code := WithRole(both, o.resources.code.block.owner, ResidentCode);
    var mqd := WithRole(code, o.mqd.block.owner, MqdRole);
    var kernarg := WithOptional(mqd, OwnerOf(o.resources.kernarg), KernargRole(o.resources.code.descriptor));
    WithOptional(kernarg, OwnerOf(o.resources.signal), CompletionSignal)
  }

  function RolesOf(o: Observation, allocations: seq<Allocation>): Roles {
    var payload := PayloadOf(o.resources.kernarg);
    var pointers := WithPointers(BaseRoles(o), allocations, payload, |payload| / 8);
    WithOptional(WithOptional(pointers, o.mqd.scratch, Scratch), o.mqd.inactive, InactiveSignal)
  }

  /** The required roles are there, and the resident code is the descriptor's allocation alone. */
  ghost predicate SoundRoles(roles: Roles, allocations: seq<Allocation>, o: Observation) {
    && RolesFor(roles, allocations, KeyOf(o.resources.code.block.owner))
    && HasRole(roles, o.head.block.owner, QueueRing)
    && HasRole(roles, o.resources.code.block.owner, ResidentCode)
    && HasRole(roles, o.mqd.block.owner, MqdRole)
  }

  predicate HasRole(roles: Roles, a: Allocation, role: Role) {
    KeyOf(a) in roles && role in roles[KeyOf(a)]
  }

  lemma BaseRolesAreSound(o: Observation, registry: Registry, q: Queue, f: Frontiers)
    requires Located(o, registry, q, f) && Numbered(registry.allocations)
    ensures SoundRoles(BaseRoles(o), registry.allocations, o)
  {
    var allocations, key := registry.allocations, KeyOf(o.resources.code.block.owner);
    WithRoleKeeps(map[], allocations, key, o.head.block.owner, QueueRing);
    var ring := WithRole(map[], o.head.block.owner, QueueRing);
    var next := if o.next.Some? then Some(o.next.value.block.owner) else None;
    WithOptionalKeeps(ring, allocations, key, next, QueueRing);
    var both := WithOptional(ring, next, QueueRing);
    WithRoleKeeps(both, allocations, key, o.resources.code.block.owner, ResidentCode);
    var code := WithRole(both, o.resources.code.block.owner, ResidentCode);
    WithRoleKeeps(code, allocations, key, o.mqd.block.owner, MqdRole);
    var mqd := WithRole(code, o.mqd.block.owner, MqdRole);
    var role := KernargRole(o.resources.code.descriptor);
    WithOptionalKeeps(mqd, allocations, key, OwnerOf(o.resources.kernarg), role);
    var kernarg := WithOptional(mqd, OwnerOf(o.resources.kernarg), role);
    WithOptionalKeeps(kernarg, allocations, key, OwnerOf(o.resources.signal), CompletionSignal);
  }

  lemma RolesAreSound(o: Observation, registry: Registry, q: Queue, f: Frontiers)
    requires Located(o, registry, q, f) && Numbered(registry.allocations)
    ensures SoundRoles(RolesOf(o, registry.allocations), registry.allocations, o)
  {
    var allocations, key := registry.allocations, KeyOf(o.resources.code.block.owner);
    var payload := PayloadOf(o.resources.kernarg);
    BaseRolesAreSound(o, registry, q, f);
    WithPointersKeeps(BaseRoles(o), allocations, payload, |payload| / 8, key);
    var pointers := WithPointers(BaseRoles(o), allocations, payload, |payload| / 8);
    WithOptionalKeeps(pointers, allocations, key, o.mqd.scratch, Scratch);
    var scratch := WithOptional(pointers, o.mqd.scratch, Scratch);
    WithOptionalKeeps(scratch, allocations, key, o.mqd.inactive, InactiveSignal);
  }
}
