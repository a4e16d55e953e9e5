/** What a failure capsule holds, and the cross-link checks of `verify`. */
module CapsuleDocument {
  import opened AqlPacket
  import opened AqlQueue
  import opened Bytes
  import opened KmtRegistry
  import opened Wrappers

  const MQD_SIZE: nat := 256
  const SIGNAL_SIZE: nat := 64
  const MQD_READ_INDEX_OFFSET: nat := 128

  datatype ProcessFile = Maps | Status | Stat | Cmdline | Exe | Fds

  /** The files of a capsule; `LogFile("worker")` is the worker log. */
  datatype Path =
    | PacketBin
    | PacketJson
    | NextBin
    | NextJson
    | DescriptorBin
    | DescriptorJson
    | KernargBin
    | SignalBin
    | MqdBin
    | CodeBin
    | RegistryJson
    | QueueJson
    | Process(name: ProcessFile)
    | LogFile(role: string)
    | TraceLog

  predicate IsLog(p: Path) {
    p.LogFile? || p.TraceLog?
  }

  datatype Role =
    | QueueRing
    | ResidentCode
    | MqdRole
    | Kernarg
    | KernargProbe
    | CompletionSignal
    | PointerCandidate
    | Scratch
    | InactiveSignal

  /** An allocation is identified by its handle and its place in the trace. */
  datatype Key = Key(handle: nat, ordinal: nat)

  datatype Identity = Identity(key: Key, line: nat, gpu: nat, va: nat, bytes: nat, flags: nat, offset: nat)

  function IdentityOf(a: Allocation): Identity {
    Identity(Key(a.handle, a.ordinal), a.line, a.gpu, a.va, a.bytes, a.flags, a.offset)
  }

  datatype Referenced = Referenced(
    identity: Identity,
    roles: set<Role>,
    digest: Digest<seq<byte>>,
    hashedVa: nat,
    hashedBytes: nat,
    copied: bool,
    copy: Option<Path>)

  datatype Pointer = Pointer(kernargOffset: nat, pointer: nat, key: Key, offset: nat)

  datatype RegistrySnapshot = RegistrySnapshot(
    pid: nat,
    observed: seq<Identity>,
    referenced: seq<Referenced>,
    queues: seq<Queue>,
    pointers: seq<Pointer>)

  datatype PacketDocument = PacketDocument(packet: Packet, va: nat)

  datatype Selection = Selection(
    queueId: nat,
    ringVa: nat,
    ringBytes: nat,
    depth: nat,
    readPointer: nat,
    writePointer: nat,
    readIndex: nat,
    writeIndex: nat,
    pendingCount: nat,
    failingIndex: nat,
    failingVa: nat,
    nextIndex: Option<nat>,
    doorbellOffset: nat,
    completionOffset: nat,
    frontiers: Frontiers,
    mqdVa: nat,
    mqdRead: nat,
    mqdWrite: nat,
    scratchVa: nat,
    scratchBytes: nat,
    inactiveSignal: nat)

  datatype Document =
    | OfPacket(packet: PacketDocument)
    | OfDescriptor(descriptor: Descriptor)
    | OfRegistry(registry: RegistrySnapshot)
    | OfSelection(selection: Selection)
    | OfProcess(files: nat)

  /** A file holds raw bytes or the canonical JSON text of a document. */
  datatype Content = Raw(bytes: seq<byte>) | Json(document: Document)

  /** The bytes of a file: any text for a document, which loads back as that document. */
  type Render = Content -> seq<byte>

  ghost predicate IsRender(render: Render) {
    forall b :: render(Raw(b)) == b
  }

  datatype Artifact = Artifact(path: Path, size: nat, digest: Digest<seq<byte>>)

  datatype Limits = Limits(hash: nat, code: nat, kernarg: nat, log: nat, totalLog: nat)

  datatype Manifest = Manifest(
    pid: nat,
    frontiersBefore: Frontiers,
    frontiersAfter: Frontiers,
    limits: Limits,
    logBytes: nat,
    artifacts: seq<Artifact>,
    selection: Selection,
    packet: PacketDocument,
    next: Option<PacketDocument>,
    descriptor: Descriptor,
    allocationCount: nat,
    observedCount: nat,
    hashedBytes: nat,
    traceAllocations: nat,
    traceQueues: nat)

  datatype Capsule = Capsule(manifest: Manifest, files: map<Path, Content>)

  // ----- The checks, in the order `verify` makes them -----

  predicate LimitsSound(l: Limits, logBytes: nat) {
    && l.hash > 0 && l.code > 0 && l.kernarg > 0 && l.log > 0 && l.totalLog > 0 && logBytes > 0
    && logBytes <= l.totalLog
  }

  /** The table lists every file once, with its size and digest. */
  predicate TableSound(artifacts: seq<Artifact>, files: map<Path, Content>, render: Render) {
    && artifacts != []
    && (forall i, j :: 0 <= i < j < |artifacts| ==> artifacts[i].path != artifacts[j].path)
    && (forall i :: 0 <= i < |artifacts| ==>
          && artifacts[i].path in files
          && artifacts[i].size == |render(files[artifacts[i].path])|
          && artifacts[i].digest == Sha256(render(files[artifacts[i].path])))
    && (forall p :: p in files ==> exists i :: 0 <= i < |artifacts| && artifacts[i].path == p)
  }

  predicate SelectionSound(s: Selection) {
    && s.depth == s.ringBytes / PACKET_BYTES && s.depth > 0
    && s.pendingCount > 0 && s.writeIndex == s.readIndex + s.pendingCount
    && s.failingIndex == s.readIndex
    && s.failingVa == s.ringVa + s.readIndex % s.depth * PACKET_BYTES
    && s.completionOffset == s.doorbellOffset + COMPLETION_FROM_DOORBELL
    && s.frontiers.producerRead <= s.frontiers.completion < s.frontiers.published <= s.frontiers.producerReserved
    && s.readIndex == s.frontiers.completion && s.writeIndex == s.frontiers.published
    && s.mqdRead == s.frontiers.producerRead && s.mqdWrite == s.frontiers.producerReserved
  }

  predicate PacketSound(p: PacketDocument, s: Selection, d: Descriptor) {
    && p.packet.packetType == KERNEL_DISPATCH && p.packet.dispatch.Some?
    && p.va == s.failingVa
    && d.va == p.packet.dispatch.value.kernelObject
    && d.preloadEnd == d.preloadOffset + d.preloadLength
    && d.kernargRead == (if d.kernargSize != 0 then d.kernargSize else d.preloadEnd * 4)
  }

  /** How many kernarg bytes a capsule holds: a probe of one byte when the kernel reads none. */
  function KernargCapture(d: Descriptor, kernargAddress: nat): nat {
    if d.kernargRead != 0 then d.kernargRead else if kernargAddress != 0 then 1 else 0
  }

  /** The files every capsule has. */
  predicate FixedPresent(files: map<Path, Content>) {
    && RegistryJson in files && QueueJson in files && LogFile("worker") in files && TraceLog in files
    && PacketBin in files && PacketJson in files && DescriptorBin in files && DescriptorJson in files
    && MqdBin in files && CodeBin in files
    && forall name :: Process(name) in files
  }

  predicate NextSound(next: Option<PacketDocument>, s: Selection) {
    if s.pendingCount > 1 then next.Some? && s.nextIndex == Some(s.readIndex + 1)
    else next.None? && s.nextIndex.None?
  }

  predicate MqdSound(mqd: seq<byte>, s: Selection) {
    && |mqd| == MQD_SIZE
    && LittleNumber(mqd, 56, 8) == s.mqdWrite && LittleNumber(mqd, 128, 8) == s.mqdRead
    && LittleNumber(mqd, 136, 4) == MQD_READ_INDEX_OFFSET
    && LittleNumber(mqd, 160, 8) == s.scratchVa && LittleNumber(mqd, 168, 8) == s.scratchBytes
    && LittleNumber(mqd, 192, 8) == s.inactiveSignal
  }

  function Total(referenced: seq<Referenced>): nat {
    if referenced == [] then 0
    else Total(referenced[..|referenced| - 1]) + referenced[|referenced| - 1].identity.bytes
  }

  predicate DistinctKeys(observed: seq<Identity>) {
    forall i, j :: 0 <= i < j < |observed| ==> observed[i].key != observed[j].key
  }

  /** One referenced allocation: it was observed, hashed whole, and copied only if it is the code. */
  predicate ReferenceSound(r: Referenced, observed: seq<Identity>) {
    && r.identity in observed
    && r.hashedVa == r.identity.va && r.hashedBytes == r.identity.bytes
    && r.copied == (ResidentCode in r.roles)
    && r.copy == if ResidentCode in r.roles then Some(CodeBin) else None
  }

  /** The referenced allocation at `code` is the only resident code. */
  predicate CodeSound(referenced: seq<Referenced>, code: nat, l: Limits, copy: seq<byte>) {
    && code < |referenced|
    && (forall i :: 0 <= i < |referenced| ==> (ResidentCode in referenced[i].roles <==> i == code))
    && referenced[code].digest == Sha256(copy)
    && referenced[code].identity.bytes == |copy|
    && referenced[code].identity.bytes <= l.code
  }

  predicate RolesSound(referenced: seq<Referenced>) {
    && (exists i :: 0 <= i < |referenced| && QueueRing in referenced[i].roles)
    && (exists i :: 0 <= i < |referenced| && MqdRole in referenced[i].roles)
  }

  predicate RegistrySound(g: RegistrySnapshot, m: Manifest) {
    && g.pid == m.pid
    && |g.observed| == m.observedCount == m.traceAllocations && |g.queues| == m.traceQueues
    && |g.referenced| == m.allocationCount
    && DistinctKeys(g.observed)
    && (forall i :: 0 <= i < |g.observed| ==> g.observed[i].bytes > 0)
    && (forall i :: 0 <= i < |g.referenced| ==> ReferenceSound(g.referenced[i], g.observed))
    && Total(g.referenced) == m.hashedBytes <= m.limits.hash
    && RolesSound(g.referenced)
  }

  /** Exactly one observed queue has the selected id, and it says what the selection says. */
  predicate QueueSound(queues: seq<Queue>, s: Selection) {
    exists i ::
      && 0 <= i < |queues|
      && (forall j :: 0 <= j < |queues| && queues[j].id == s.queueId ==> j == i)
      && queues[i].id == s.queueId && queues[i].active
      && queues[i].ringVa == s.ringVa && queues[i].ringBytes == s.ringBytes
      && queues[i].readPointer == s.readPointer && queues[i].writePointer == s.writePointer
      && queues[i].doorbellOffset == s.doorbellOffset
  }

  /** The packet is what its captured bytes decode to. */
  predicate PacketMatches(bytes: seq<byte>, document: Content, p: PacketDocument, va: nat, requireDispatch: bool) {
    && document == Json(OfPacket(p))
    && p.packet.digest == Sha256(bytes)
    && DecodePacket(bytes, requireDispatch) == Success(p.packet) && p.va == va
  }

  predicate DescriptorMatches(bytes: seq<byte>, document: Content, d: Descriptor, va: nat) {
    && document == Json(OfDescriptor(d))
    && d.digest == Sha256(bytes)
    && DecodeDescriptor(bytes, va) == Success(d)
  }

  /** The copied code holds the captured descriptor bytes where the packet points. */
  predicate CodeHoldsDescriptor(code: seq<byte>, codeVa: nat, descriptor: seq<byte>, d: Descriptor, kernelObject: nat) {
    && codeVa <= kernelObject
    && kernelObject - codeVa + d.size <= |code|
    && code[kernelObject - codeVa..][..d.size] == descriptor
  }

  function LogBytes(artifacts: seq<Artifact>): nat {
    if artifacts == [] then 0
    else
      LogBytes(artifacts[..|artifacts| - 1])
      + if IsLog(artifacts[|artifacts| - 1].path) then artifacts[|artifacts| - 1].size else 0
  }

  predicate LogsSound(artifacts: seq<Artifact>, l: Limits, logBytes: nat) {
    && LogBytes(artifacts) == logBytes
    && forall i :: 0 <= i < |artifacts| && IsLog(artifacts[i].path) ==> artifacts[i].size <= l.log
  }

  /** The kernarg and signal files: there when needed, and of the right size. */
  predicate ResourceFiles(files: map<Path, Content>, dispatch: Dispatch, d: Descriptor, render: Render) {
    && (KernargCapture(d, dispatch.kernargAddress) > 0 ==>
          KernargBin in files && |render(files[KernargBin])| == KernargCapture(d, dispatch.kernargAddress))
    && (dispatch.completionSignal != 0 ==> SignalBin in files && |render(files[SignalBin])| == SIGNAL_SIZE)
  }

  predicate NextFiles(files: map<Path, Content>, next: Option<PacketDocument>, s: Selection, render: Render) {
    s.pendingCount > 1 && s.depth > 0 && next.Some? ==>
      && NextBin in files && NextJson in files
      && PacketMatches(render(files[NextBin]), files[NextJson], next.value,
                       s.ringVa + (s.readIndex + 1) % s.depth * PACKET_BYTES, false)
  }

  predicate HeadFiles(files: map<Path, Content>, p: PacketDocument, s: Selection, render: Render) {
    && PacketBin in files && PacketJson in files
    && PacketMatches(render(files[PacketBin]), files[PacketJson], p, s.failingVa, true)
  }

  predicate DescriptorFiles(files: map<Path, Content>, d: Descriptor, kernelObject: nat, render: Render) {
    && DescriptorBin in files && DescriptorJson in files
    && DescriptorMatches(render(files[DescriptorBin]), files[DescriptorJson], d, kernelObject)
  }

  predicate QueueFiles(files: map<Path, Content>, s: Selection, render: Render) {
    && QueueJson in files && files[QueueJson] == Json(OfSelection(s))
    && MqdBin in files && MqdSound(render(files[MqdBin]), s)
  }

  /** The files that must be there, with the contents the other checks read. */
  predicate FilesSound(c: Capsule, render: Render) {
    var m := c.manifest;
    && m.packet.packet.dispatch.Some?
    && FixedPresent(c.files)
    && HeadFiles(c.files, m.packet, m.selection, render)
    && NextFiles(c.files, m.next, m.selection, render)
    && DescriptorFiles(c.files, m.descriptor, m.packet.packet.dispatch.value.kernelObject, render)
    && ResourceFiles(c.files, m.packet.packet.dispatch.value, m.descriptor, render)
    && QueueFiles(c.files, m.selection, render)
  }

  /** The checks on the registry file; `code` is the resident code among the referenced allocations. */
  predicate SnapshotSound(c: Capsule, g: RegistrySnapshot, code: nat, render: Render) {
    && CodeBin in c.files && RegistryJson in c.files && c.files[RegistryJson] == Json(OfRegistry(g))
    && RegistrySound(g, c.manifest)
    && CodeSound(g.referenced, code, c.manifest.limits, render(c.files[CodeBin]))
    && QueueSound(g.queues, c.manifest.selection)
  }

  /** All checks of `verify` but the last look into the copied code. */
  predicate CrossLinked(c: Capsule, g: RegistrySnapshot, code: nat, render: Render) {
    var m := c.manifest;
    && LimitsSound(m.limits, m.logBytes)
    && m.frontiersBefore == m.frontiersAfter == m.selection.frontiers
    && TableSound(m.artifacts, c.files, render)
    && SelectionSound(m.selection)
    && PacketSound(m.packet, m.selection, m.descriptor)
    && NextSound(m.next, m.selection)
    && FilesSound(c, render)
    && SnapshotSound(c, g, code, render)
    && LogsSound(m.artifacts, m.limits, m.logBytes)
  }

  predicate HoldsDescriptor(c: Capsule, g: RegistrySnapshot, code: nat, render: Render)
    requires CrossLinked(c, g, code, render)
  {
    CodeHoldsDescriptor(render(c.files[CodeBin]), g.referenced[code].identity.va, render(c.files[DescriptorBin]),
                        c.manifest.descriptor, c.manifest.packet.packet.dispatch.value.kernelObject)
  }

  /** `verify` accepts the capsule. */
  ghost predicate Verifies(c: Capsule, render: Render) {
    exists g, code :: CrossLinked(c, g, code, render) && HoldsDescriptor(c, g, code, render)
  }
}
