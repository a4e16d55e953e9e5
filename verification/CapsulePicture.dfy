/** What a committed capsule shows, told from memory and the worker's files alone. */
module CapsulePicture {
  import opened AqlPacket
  import opened AqlQueue
  import opened Bytes
  import opened CapsuleAgreement
  import opened CapsuleCapture
  import opened CapsuleDocument
  import opened CapsuleFiles
  import opened CapsuleMemory
  import opened CapsuleRoles
  import opened CapsuleRun
  import opened KmtRegistry
  import opened Wrappers
  import V = MemoryView

  /** The file holds the bytes that memory shows at this address. */
  ghost predicate FileShows(files: map<Path, Content>, path: Path, m: Memory, va: nat, count: nat) {
    && path in files && files[path].Raw? && |files[path].bytes| == count
    && exists a :: V.Sees(m, va, files[path].bytes, a)
  }

  /** The address of slot n of the ring. */
  function Slot(q: Queue, n: nat): nat
    requires q.ringBytes >= 64
  {
    q.ringVa + 64 * (n % (q.ringBytes / 64))
  }

  /** The packet that was not retired, and the one behind it if it was published. */
  ghost predicate ShowsPackets(c: Capsule, q: Queue, f: Frontiers, at: Instants) {
    && q.ringBytes >= 64
    && FileShows(c.files, PacketBin, at(HeadUse), Slot(q, f.completion), 64)
    && (NextBin in c.files <==> f.completion + 1 < f.published)
    && (NextBin in c.files ==> FileShows(c.files, NextBin, at(NextUse), Slot(q, f.completion + 1), 64))
  }

  /** The descriptor at this address, in either length. */
  ghost predicate ShowsDescriptor(c: Capsule, code: nat, at: Instants) {
    || FileShows(c.files, DescriptorBin, at(PrefixUse), code, 64)
    || FileShows(c.files, DescriptorBin, at(DescriptorUse), code, 256)
  }

  /** The manifest says what the descriptor decodes to. */
  predicate Decodes(c: Capsule, code: nat) {
    && DescriptorBin in c.files && c.files[DescriptorBin].Raw?
    && DecodeDescriptor(c.files[DescriptorBin].bytes, code) == Success(c.manifest.descriptor)
  }

  /** The file is there when there is something to show, and shows it. */
  ghost predicate ShowsIfAny(c: Capsule, path: Path, m: Memory, va: nat, count: nat) {
    && (path in c.files <==> count > 0)
    && (path in c.files ==> FileShows(c.files, path, m, va, count))
  }

  /** What the packet leads to, as much kernarg as the descriptor says, and the state of the queue. */
  ghost predicate ShowsResources(c: Capsule, q: Queue, packet: seq<byte>, at: Instants)
    requires |packet| == 64
  {
    var code, kernarg, signal := LittleNumber(packet, 32, 8), LittleNumber(packet, 40, 8), LittleNumber(packet, 56, 8);
    var wanted := c.manifest.descriptor.kernargRead;
    && ShowsDescriptor(c, code, at)
    && ShowsIfAny(c, KernargBin, at(KernargUse), kernarg, if wanted > 0 then wanted else if kernarg > 0 then 1 else 0)
    && ShowsIfAny(c, SignalBin, at(SignalUse), signal, if signal > 0 then 64 else 0)
    && q.readPointer >= 128 && FileShows(c.files, MqdBin, at(MqdUse), q.readPointer - 128, 256)
  }

  /** A copy of the whole allocation that holds the descriptor, as the copying pass saw it. */
  ghost predicate ShowsCode(c: Capsule, i: Input, code: nat, size: nat, passes: Passes) {
    && CodeBin in c.files && c.files[CodeBin].Raw?
    && exists a ::
         && V.HoldsRange(i.registry.allocations, a, code, size) && |c.files[CodeBin].bytes| == a.bytes
         && V.StoreOf(passes(a), a).Some? && V.At(V.StoreOf(passes(a), a).value, a.offset, c.files[CodeBin].bytes)
  }

  /** The worker's files, byte for byte. */
  predicate ShowsWorker(files: map<Path, Content>, i: Input) {
    && Holds(files, LogFile("worker"), Raw(i.worker)) && Holds(files, TraceLog, Raw(i.trace))
    && (forall n :: 0 <= n < |i.logs| ==> Holds(files, LogFile(i.logs[n].role), Raw(i.logs[n].payload)))
    && Holds(files, Process(Cmdline), Raw(i.snapshots.cmdline)) && Holds(files, Process(Exe), Raw(i.snapshots.exe))
    && Holds(files, Process(Maps), Raw(i.snapshots.maps)) && Holds(files, Process(Stat), Raw(i.snapshots.stat))
    && Holds(files, Process(Status), Raw(i.snapshots.status))
  }

  /** A word of the kernarg that points into an allocation, with the newest owner. */
  ghost predicate PointsInto(p: Pointer, k: nat, payload: seq<byte>, allocations: seq<Allocation>) {
    && 8 * k + 8 <= |payload| && p.kernargOffset == 8 * k && p.pointer == LittleNumber(payload, 8 * k, 8)
    && PointsWith(p, p.pointer, allocations)
  }

  /** Every allocation and queue of the trace is listed, and exactly the words that are pointers. */
  ghost predicate ShowsRegistry(c: Capsule, i: Input) {
    && RegistryJson in c.files && c.files[RegistryJson].Json? && c.files[RegistryJson].document.OfRegistry?
    && var g, all := c.files[RegistryJson].document.registry, i.registry.allocations;
       && g.pid == i.registry.pid && g.queues == i.registry.queues && |g.observed| == |all|
       && (forall n :: 0 <= n < |all| ==>
             g.observed[n] == Identity(Key(all[n].handle, all[n].ordinal), all[n].line, all[n].gpu, all[n].va, all[n].bytes,
                                       all[n].flags, all[n].offset))
       && forall p :: p in g.pointers <==> exists k: nat :: PointsInto(p, k, KernargBytes(c.files), all)
  }

  function KernargBytes(files: map<Path, Content>): seq<byte> {
    if KernargBin in files && files[KernargBin].Raw? then files[KernargBin].bytes else []
  }

  /** What a capsule of this queue shows. */
  ghost predicate Pictures(c: Capsule, i: Input, q: Queue, f: Frontiers, at: Instants, passes: Passes) {
    && ShowsPackets(c, q, f, at)
    && ShowsResources(c, q, c.files[PacketBin].bytes, at)
    && Decodes(c, LittleNumber(c.files[PacketBin].bytes, 32, 8))
    && ShowsCode(c, i, LittleNumber(c.files[PacketBin].bytes, 32, 8), |c.files[DescriptorBin].bytes|, passes)
    && ShowsWorker(c.files, i) && ShowsRegistry(c, i)
    && c.manifest.pid == i.registry.pid && c.manifest.frontiersBefore == c.manifest.frontiersAfter == f
  }

  lemma BlockIsSeen(m: Memory, va: nat, count: nat, b: Block)
    requires Indexed(m.registry) && BlockAt(m, va, count) == Some(b)
    ensures |b.bytes| == count && count > 0 && V.Sees(m, va, b.bytes, b.owner)
  {
    V.ReadExactly(m, va, count, b.bytes, b.owner);
  }

  lemma SlotExactly(q: Queue, n: nat)
    requires q.ringBytes >= 64
    ensures SlotVa(q.ringVa, q.ringBytes, n) == Slot(q, n)
  {
  }

  lemma PacketIsRead(r: Reader, q: Queue, n: nat, required: bool, h: Head)
    requires q.ringBytes >= 64 && ReadPacket(r, q, n, required) == Success(h)
    ensures r.read(Slot(q, n), 64) == Some(h.block) && DecodePacket(h.block.bytes, required) == Success(h.packet)
  {
    SlotExactly(q, n);
  }

  lemma NextIsRead(r: Reader, q: Queue, f: Frontiers, next: Option<Head>)
    requires q.ringBytes >= 64 && ReadNext(r, q, f) == Success(next)
    ensures next.Some? <==> f.completion + 1 < f.published
    ensures next.Some? ==> ReadPacket(r, q, f.completion + 1, false) == Success(next.value)
  {
  }

  lemma ReaderIs(m: Memory, va: nat, count: nat)
    ensures ReaderOf(m).read(va, count) == BlockAt(m, va, count)
  {
  }

  // ----- What the packet leads to -----

  lemma CodeIsReadBy(m: Reader, va: nat, code: Code)
    requires ReadCode(m, va) == Success(code)
    ensures DecodeDescriptor(code.block.bytes, va) == Success(code.descriptor)
    ensures m.read(va, 64) == Some(code.block) || m.read(va, 256) == Some(code.block)
  {
  }

  lemma CodeIsRead(at: Instants, va: nat, code: Code)
    requires ReadCode(CodeReader(at), va) == Success(code)
    ensures DecodeDescriptor(code.block.bytes, va) == Success(code.descriptor)
    ensures BlockAt(at(PrefixUse), va, 64) == Some(code.block) || BlockAt(at(DescriptorUse), va, 256) == Some(code.block)
  {
    CodeIsReadBy(CodeReader(at), va, code);
    CodeReads(at, va);
  }

  lemma CodeReads(at: Instants, va: nat)
    ensures CodeReader(at).read(va, 64) == BlockAt(at(PrefixUse), va, 64)
    ensures CodeReader(at).read(va, 256) == BlockAt(at(DescriptorUse), va, 256)
  {
    var reader := CodeReader(at);
    assert CodeUse(64) == PrefixUse && CodeUse(256) == DescriptorUse;
    assert reader.read(va, 64) == BlockAt(at(CodeUse(64)), va, 64);
    assert reader.read(va, 256) == BlockAt(at(CodeUse(256)), va, 256);
  }

  lemma DescriptorIsShown(files: map<Path, Content>, prefix: Memory, whole: Memory, va: nat, b: Block)
    requires Indexed(prefix.registry) && Indexed(whole.registry)
    requires BlockAt(prefix, va, 64) == Some(b) || BlockAt(whole, va, 256) == Some(b)
    requires Holds(files, DescriptorBin, Raw(b.bytes))
    ensures FileShows(files, DescriptorBin, prefix, va, 64) || FileShows(files, DescriptorBin, whole, va, 256)
  {
    if BlockAt(prefix, va, 64) == Some(b) {
      BlockIsSeen(prefix, va, 64, b);
    } else {
      BlockIsSeen(whole, va, 256, b);
    }
  }

  lemma OptionalIsRead(r: Reader, va: nat, count: nat, b: Option<Block>)
    requires ReadOptional(r, va, count) == Success(b)
    ensures b.Some? <==> count > 0
    ensures b.Some? ==> r.read(va, count) == b
  {
  }

  lemma OptionalIsShown(files: map<Path, Content>, path: Path, m: Memory, va: nat, count: nat, b: Option<Block>)
    requires Indexed(m.registry) && (b.Some? <==> count > 0) && (b.Some? ==> BlockAt(m, va, count) == b)
    requires if b.Some? then Holds(files, path, Raw(b.value.bytes)) else path !in files
    ensures path in files <==> count > 0
    ensures path in files ==> FileShows(files, path, m, va, count)
  {
    if count > 0 {
      BlockIsSeen(m, va, count, b.value);
    }
  }

  lemma DescriptorPictured(c: Capsule, at: Instants, registry: Registry, code: nat, r: Code)
    requires AllOf(at, registry) && Indexed(registry) && Holds(c.files, DescriptorBin, Raw(r.block.bytes))
    requires BlockAt(at(PrefixUse), code, 64) == Some(r.block) || BlockAt(at(DescriptorUse), code, 256) == Some(r.block)
    ensures ShowsDescriptor(c, code, at)
  {
    assert at(PrefixUse).registry == registry && at(DescriptorUse).registry == registry;
    DescriptorIsShown(c.files, at(PrefixUse), at(DescriptorUse), code, r.block);
  }

  lemma OptionalPictured(c: Capsule, path: Path, m: Memory, registry: Registry, va: nat, count: nat, b: Option<Block>)
    requires m.registry == registry && Indexed(registry)
    requires (b.Some? <==> count > 0) && (b.Some? ==> BlockAt(m, va, count) == b)
    requires if b.Some? then Holds(c.files, path, Raw(b.value.bytes)) else path !in c.files
    ensures ShowsIfAny(c, path, m, va, count)
  {
    OptionalIsShown(c.files, path, m, va, count, b);
  }

  lemma StatePictured(c: Capsule, m: Memory, registry: Registry, va: nat, b: Block)
    requires m.registry == registry && Indexed(registry) && BlockAt(m, va, 256) == Some(b)
    requires Holds(c.files, MqdBin, Raw(b.bytes))
    ensures FileShows(c.files, MqdBin, m, va, 256)
  {
    BlockIsShown(c.files, MqdBin, m, va, 256, b);
  }

  lemma MqdIsRead(r: Reader, q: Queue, f: Frontiers, s: MqdState)
    requires ReadMqd(r, q, f) == Success(s)
    ensures q.readPointer >= 128 && r.read(q.readPointer - 128, 256) == Some(s.block)
  {
  }

  lemma BlockIsShown(files: map<Path, Content>, path: Path, m: Memory, va: nat, count: nat, b: Block)
    requires Indexed(m.registry) && BlockAt(m, va, count) == Some(b) && Holds(files, path, Raw(b.bytes))
    ensures FileShows(files, path, m, va, count)
  {
    BlockIsSeen(m, va, count, b);
  }

  lemma KernargIsRead(r: Reader, va: nat, d: Descriptor, most: nat, b: Option<Block>)
    requires ReadKernarg(r, va, d, most) == Success(b)
    ensures ReadOptional(r, va, if d.kernargRead > 0 then d.kernargRead else if va > 0 then 1 else 0) == Success(b)
  {
  }

  lemma ResourcesAreRead(m: Readers, d: Dispatch, l: Limits, r: Resources)
    requires ReadResources(m, d, l) == Success(r)
    ensures ReadCode(m.code, d.kernelObject) == Success(r.code)
    ensures ReadKernarg(m.kernarg, d.kernargAddress, r.code.descriptor, l.kernarg) == Success(r.kernarg)
    ensures ReadOptional(m.signal, d.completionSignal, if d.completionSignal > 0 then 64 else 0) == Success(r.signal)
  {
    var code, most := ReadCode(m.code, d.kernelObject), l.kernarg;
    if code.Success? {
      var kernarg := ReadKernarg(m.kernarg, d.kernargAddress, code.value.descriptor, most);
      ResourcesFrom(m, d, l, code, kernarg);
    }
  }

  lemma ResourcesFrom(m: Readers, d: Dispatch, l: Limits, code: Result<Code, string>, kernarg: Result<Option<Block>, string>)
    requires code == ReadCode(m.code, d.kernelObject) && code.Success?
    requires kernarg == ReadKernarg(m.kernarg, d.kernargAddress, code.value.descriptor, l.kernarg)
    ensures ReadResources(m, d, l).Success? ==>
              && kernarg.Success? && ReadResources(m, d, l).value.code == code.value
              && ReadResources(m, d, l).value.kernarg == kernarg.value
  {
  }

  /** The fields that a packet points with. */
  lemma PointsTo(packet: seq<byte>, p: Packet)
    requires DecodePacket(packet, true) == Success(p)
    ensures |packet| == 64 && p.dispatch.Some? && p.dispatch.value.kernelObject == LittleNumber(packet, 32, 8)
    ensures p.dispatch.value.kernargAddress == LittleNumber(packet, 40, 8)
    ensures p.dispatch.value.completionSignal == LittleNumber(packet, 56, 8)
  {
  }

  // ----- The whole picture -----

  /** What was read, and where; the function of the descriptor is told apart from its bytes. */
  ghost predicate ReadFrom(m: Readers, q: Queue, f: Frontiers, o: Observation, code: nat, kernarg: nat, signal: nat) {
    && q.ringBytes >= 64 && q.readPointer >= 128
    && m.head.read(Slot(q, f.completion), 64) == Some(o.head.block)
    && (o.next.Some? <==> f.completion + 1 < f.published)
    && (o.next.Some? ==> m.next.read(Slot(q, f.completion + 1), 64) == Some(o.next.value.block))
    && (m.code.read(code, 64) == Some(o.resources.code.block) || m.code.read(code, 256) == Some(o.resources.code.block))
    && OptionallyRead(m.kernarg, kernarg, KernargCount(o.resources.code.descriptor, kernarg), o.resources.kernarg)
    && OptionallyRead(m.signal, signal, if signal > 0 then 64 else 0, o.resources.signal)
    && m.mqd.read(q.readPointer - 128, 256) == Some(o.mqd.block)
  }

  function KernargCount(d: Descriptor, va: nat): nat {
    if d.kernargRead > 0 then d.kernargRead else if va > 0 then 1 else 0
  }

  ghost predicate OptionallyRead(r: Reader, va: nat, count: nat, b: Option<Block>) {
    (b.Some? <==> count > 0) && (b.Some? ==> r.read(va, count) == b)
  }

  lemma HeadIsRead(parts: Parts, r: Reader, q: Queue, f: Frontiers, o: Observation)
    requires q.ringBytes >= 64 && Observe(parts) == Success(o) && parts.head == ReadPacket(r, q, f.completion, true)
    ensures r.read(Slot(q, f.completion), 64) == Some(o.head.block)
    ensures DecodePacket(o.head.block.bytes, true) == Success(o.head.packet)
  {
    PacketIsRead(r, q, f.completion, true, o.head);
  }

  lemma BehindIsRead(parts: Parts, r: Reader, q: Queue, f: Frontiers, o: Observation)
    requires q.ringBytes >= 64 && Observe(parts) == Success(o) && parts.next == ReadNext(r, q, f)
    ensures o.next.Some? <==> f.completion + 1 < f.published
    ensures o.next.Some? ==> r.read(Slot(q, f.completion + 1), 64) == Some(o.next.value.block)
  {
    NextIsRead(r, q, f, o.next);
    if o.next.Some? {
      PacketIsRead(r, q, f.completion + 1, false, o.next.value);
    }
  }

  lemma LedToIsRead(m: Readers, d: Dispatch, l: Limits, r: Resources)
    requires ReadResources(m, d, l) == Success(r)
    ensures DecodeDescriptor(r.code.block.bytes, d.kernelObject) == Success(r.code.descriptor)
    ensures m.code.read(d.kernelObject, 64) == Some(r.code.block) || m.code.read(d.kernelObject, 256) == Some(r.code.block)
    ensures OptionallyRead(m.kernarg, d.kernargAddress, KernargCount(r.code.descriptor, d.kernargAddress), r.kernarg)
    ensures OptionallyRead(m.signal, d.completionSignal, if d.completionSignal > 0 then 64 else 0, r.signal)
  {
    ResourcesAreRead(m, d, l, r);
    CodeIsReadBy(m.code, d.kernelObject, r.code);
    KernargIsRead(m.kernarg, d.kernargAddress, r.code.descriptor, l.kernarg, r.kernarg);
    OptionalIsRead(m.kernarg, d.kernargAddress, KernargCount(r.code.descriptor, d.kernargAddress), r.kernarg);
    OptionalIsRead(m.signal, d.completionSignal, if d.completionSignal > 0 then 64 else 0, r.signal);
  }

  lemma StateIsRead(parts: Parts, r: Reader, q: Queue, f: Frontiers, o: Observation)
    requires Observe(parts) == Success(o) && parts.mqd == ReadMqd(r, q, f)
    ensures q.readPointer >= 128 && r.read(q.readPointer - 128, 256) == Some(o.mqd.block)
  {
    MqdIsRead(r, q, f, o.mqd);
  }

  lemma ObservedIsRead(m: Readers, q: Queue, f: Frontiers, l: Limits, o: Observation)
    requires q.ringBytes >= 64 && Observe(PartsOf(m, q, f, l)) == Success(o)
    ensures o.head.packet.dispatch.Some? && DecodePacket(o.head.block.bytes, true) == Success(o.head.packet)
    ensures var d := o.head.packet.dispatch.value;
            && DecodeDescriptor(o.resources.code.block.bytes, d.kernelObject) == Success(o.resources.code.descriptor)
            && ReadFrom(m, q, f, o, d.kernelObject, d.kernargAddress, d.completionSignal)
  {
    var parts := PartsOf(m, q, f, l);
    var d := o.head.packet.dispatch.value;
    HeadIsRead(parts, m.head, q, f, o);
    BehindIsRead(parts, m.next, q, f, o);
    assert parts.resources(d) == ReadResources(m, d, l);
    LedToIsRead(m, d, l, o.resources);
    StateIsRead(parts, m.mqd, q, f, o);
  }

  lemma PacketsAreShown(c: Capsule, i: Input, q: Queue, f: Frontiers, o: Observation, head: Memory, next: Memory)
    requires Indexed(head.registry) && Indexed(next.registry) && q.ringBytes >= 64
    requires BlockAt(head, Slot(q, f.completion), 64) == Some(o.head.block)
    requires o.next.Some? <==> f.completion + 1 < f.published
    requires o.next.Some? ==> BlockAt(next, Slot(q, f.completion + 1), 64) == Some(o.next.value.block)
    requires Holds(c.files, PacketBin, Raw(o.head.block.bytes))
    requires if o.next.Some? then Holds(c.files, NextBin, Raw(o.next.value.block.bytes)) else NextBin !in c.files
    ensures FileShows(c.files, PacketBin, head, Slot(q, f.completion), 64)
    ensures NextBin in c.files <==> f.completion + 1 < f.published
    ensures NextBin in c.files ==> FileShows(c.files, NextBin, next, Slot(q, f.completion + 1), 64)
  {
    BlockIsShown(c.files, PacketBin, head, Slot(q, f.completion), 64, o.head.block);
    if o.next.Some? {
      BlockIsShown(c.files, NextBin, next, Slot(q, f.completion + 1), 64, o.next.value.block);
    }
  }

  ghost predicate PointsBefore(p: Pointer, n: nat, payload: seq<byte>, allocations: seq<Allocation>) {
    exists k: nat :: k < n && PointsInto(p, k, payload, allocations)
  }

  lemma OneMorePoints(p: Pointer, n: nat, payload: seq<byte>, allocations: seq<Allocation>)
    ensures PointsBefore(p, n + 1, payload, allocations)
       <==> PointsBefore(p, n, payload, allocations) || PointsInto(p, n, payload, allocations)
  {
  }

  lemma {:induction false} PointersExactly(allocations: seq<Allocation>, payload: seq<byte>, n: nat, p: Pointer, r: Registry)
    requires 8 * n <= |payload| && Indexed(r) && r.allocations == allocations
    ensures p in PointersIn(allocations, payload, n) <==> PointsBefore(p, n, payload, allocations)
  {
    if n > 0 {
      var k := n - 1;
      PointersExactly(allocations, payload, k, p, r);
      WordPointsExactly(allocations, payload, k, p, r);
      OneMorePoints(p, k, payload, allocations);
      OneMorePointer(allocations, payload, k, p);
    }
  }

  lemma OneMorePointer(allocations: seq<Allocation>, payload: seq<byte>, k: nat, p: Pointer)
    requires 8 * k + 8 <= |payload|
    ensures p in PointersIn(allocations, payload, k + 1)
       <==> || p in PointersIn(allocations, payload, k)
            || p in PointersOf(Newest(allocations, WordAt(payload, k), 1), 8 * k, WordAt(payload, k))
  {
    OneMoreWord(map[], allocations, payload, k, Newest(allocations, WordAt(payload, k), 1));
  }

  ghost predicate PointsWith(p: Pointer, word: nat, allocations: seq<Allocation>) {
    exists a ::
      V.HoldsRange(allocations, a, word, 1) && p.key == Key(a.handle, a.ordinal) && p.offset == word - a.va
  }

  lemma PointerOfWord(r: Registry, word: nat, offset: nat, p: Pointer)
    requires Indexed(r) && word < 0x1_0000_0000_0000_0000
    ensures p in PointersOf(Newest(r.allocations, word, 1), offset, word)
       <==> p.kernargOffset == offset && p.pointer == word && PointsWith(p, word, r.allocations)
  {
    var a := Newest(r.allocations, word, 1);
    assert Resolve(r, word, 1) == a;
    if a.Some? {
      V.ResolveExactly(r, word, 1, a.value);
      assert V.HoldsRange(r.allocations, a.value, word, 1);
    }
    if PointsWith(p, word, r.allocations) {
      var b :| V.HoldsRange(r.allocations, b, word, 1) && p.key == Key(b.handle, b.ordinal) && p.offset == word - b.va;
      V.ResolveExactly(r, word, 1, b);
    }
  }

  lemma WordPointsExactly(allocations: seq<Allocation>, payload: seq<byte>, k: nat, p: Pointer, r: Registry)
    requires 8 * k + 8 <= |payload| && Indexed(r) && r.allocations == allocations
    ensures p in PointersOf(Newest(allocations, WordAt(payload, k), 1), 8 * k, WordAt(payload, k))
       <==> PointsInto(p, k, payload, allocations)
  {
    Spans();
    PointerOfWord(r, WordAt(payload, k), 8 * k, p);
  }

  lemma AllPointers(allocations: seq<Allocation>, payload: seq<byte>, p: Pointer, r: Registry)
    requires Indexed(r) && r.allocations == allocations
    ensures p in PointersIn(allocations, payload, |payload| / 8) <==> exists k: nat :: PointsInto(p, k, payload, allocations)
  {
    PointersExactly(allocations, payload, |payload| / 8, p, r);
  }

  lemma CodeIsShown(c: Capsule, i: Input, a: Allocation, code: nat, size: nat, passes: Passes, copy: seq<byte>)
    requires V.HoldsRange(i.registry.allocations, a, code, size) && ContentsOf(passes)(a) == Some(copy)
    requires Holds(c.files, CodeBin, Raw(copy)) && |copy| == a.bytes > 0
    ensures ShowsCode(c, i, code, size, passes)
  {
    assert WholeOf(passes(a), a) == Some(copy);
    V.ReadAtExactly(V.StoreOf(passes(a), a).value, a.offset, a.bytes, copy);
  }

  lemma ReadersAre(at: Instants)
    ensures ReadersOf(at).head == ReaderOf(at(HeadUse)) && ReadersOf(at).next == ReaderOf(at(NextUse))
    ensures ReadersOf(at).code == CodeReader(at) && ReadersOf(at).kernarg == ReaderOf(at(KernargUse))
    ensures ReadersOf(at).signal == ReaderOf(at(SignalUse)) && ReadersOf(at).mqd == ReaderOf(at(MqdUse))
  {
  }

  lemma AllIndexed(at: Instants, registry: Registry, use: Use)
    requires AllOf(at, registry) && Indexed(registry)
    ensures Indexed(at(use).registry) && at(use).registry == registry
  {
  }

  // ----- A committed capsule is a picture -----

  lemma MemoryRead(at: Instants, q: Queue, f: Frontiers, o: Observation, code: nat, kernarg: nat, signal: nat)
    requires ReadFrom(ReadersOf(at), q, f, o, code, kernarg, signal)
    ensures q.ringBytes >= 64 && q.readPointer >= 128
    ensures BlockAt(at(HeadUse), Slot(q, f.completion), 64) == Some(o.head.block)
    ensures o.next.Some? <==> f.completion + 1 < f.published
    ensures o.next.Some? ==> BlockAt(at(NextUse), Slot(q, f.completion + 1), 64) == Some(o.next.value.block)
    ensures || BlockAt(at(PrefixUse), code, 64) == Some(o.resources.code.block)
            || BlockAt(at(DescriptorUse), code, 256) == Some(o.resources.code.block)
    ensures o.resources.kernarg.Some? <==> KernargCount(o.resources.code.descriptor, kernarg) > 0
    ensures o.resources.kernarg.Some? ==>
              BlockAt(at(KernargUse), kernarg, KernargCount(o.resources.code.descriptor, kernarg)) == o.resources.kernarg
    ensures o.resources.signal.Some? <==> signal > 0
    ensures o.resources.signal.Some? ==> BlockAt(at(SignalUse), signal, 64) == o.resources.signal
    ensures BlockAt(at(MqdUse), q.readPointer - 128, 256) == Some(o.mqd.block)
  {
    ReadersAre(at);
    CodeReads(at, code);
  }

  /** The files that were stored, as far as they show memory. */
  ghost predicate Files(files: map<Path, Content>, o: Observation) {
    && Holds(files, PacketBin, Raw(o.head.block.bytes))
    && (if o.next.Some? then Holds(files, NextBin, Raw(o.next.value.block.bytes)) else NextBin !in files)
    && Holds(files, DescriptorBin, Raw(o.resources.code.block.bytes))
    && (if o.resources.kernarg.Some? then Holds(files, KernargBin, Raw(o.resources.kernarg.value.bytes))
        else KernargBin !in files)
    && (if o.resources.signal.Some? then Holds(files, SignalBin, Raw(o.resources.signal.value.bytes))
        else SignalBin !in files)
    && Holds(files, MqdBin, Raw(o.mqd.block.bytes))
  }

  /** What was read from memory. */
  ghost predicate SeenAt(at: Instants, q: Queue, f: Frontiers, o: Observation, code: nat, kernarg: nat, count: nat, signal: nat) {
    && q.ringBytes >= 64 && q.readPointer >= 128
    && BlockAt(at(HeadUse), Slot(q, f.completion), 64) == Some(o.head.block)
    && (o.next.Some? <==> f.completion + 1 < f.published)
    && (o.next.Some? ==> BlockAt(at(NextUse), Slot(q, f.completion + 1), 64) == Some(o.next.value.block))
    && (|| BlockAt(at(PrefixUse), code, 64) == Some(o.resources.code.block)
        || BlockAt(at(DescriptorUse), code, 256) == Some(o.resources.code.block))
    && (o.resources.kernarg.Some? <==> count > 0)
    && (o.resources.kernarg.Some? ==> BlockAt(at(KernargUse), kernarg, count) == o.resources.kernarg)
    && (o.resources.signal.Some? <==> signal > 0)
    && (o.resources.signal.Some? ==> BlockAt(at(SignalUse), signal, 64) == o.resources.signal)
    && BlockAt(at(MqdUse), q.readPointer - 128, 256) == Some(o.mqd.block)
  }

  lemma PacketsPictured(c: Capsule, i: Input, q: Queue, f: Frontiers, o: Observation, at: Instants,
                        code: nat, kernarg: nat, count: nat, signal: nat)
    requires AllOf(at, i.registry) && Indexed(i.registry) && Files(c.files, o)
    requires SeenAt(at, q, f, o, code, kernarg, count, signal)
    ensures ShowsPackets(c, q, f, at) && c.files[PacketBin].bytes == o.head.block.bytes
  {
    AllIndexed(at, i.registry, HeadUse);
    AllIndexed(at, i.registry, NextUse);
    PacketsAreShown(c, i, q, f, o, at(HeadUse), at(NextUse));
  }

  lemma DescriptorAndState(c: Capsule, i: Input, q: Queue, f: Frontiers, o: Observation, at: Instants,
                           code: nat, kernarg: nat, count: nat, signal: nat)
    requires AllOf(at, i.registry) && Indexed(i.registry) && Files(c.files, o)
    requires SeenAt(at, q, f, o, code, kernarg, count, signal)
    ensures ShowsDescriptor(c, code, at)
    ensures q.readPointer >= 128 && FileShows(c.files, MqdBin, at(MqdUse), q.readPointer - 128, 256)
  {
    AllIndexed(at, i.registry, MqdUse);
    var state := q.readPointer - 128;
    DescriptorPictured(c, at, i.registry, code, o.resources.code);
    StatePictured(c, at(MqdUse), i.registry, state, o.mqd.block);
  }

  lemma KernargAndSignal(c: Capsule, i: Input, q: Queue, f: Frontiers, o: Observation, at: Instants,
                         code: nat, kernarg: nat, count: nat, signal: nat)
    requires AllOf(at, i.registry) && Indexed(i.registry) && Files(c.files, o)
    requires SeenAt(at, q, f, o, code, kernarg, count, signal)
    ensures ShowsIfAny(c, KernargBin, at(KernargUse), kernarg, count)
    ensures ShowsIfAny(c, SignalBin, at(SignalUse), signal, if signal > 0 then 64 else 0)
  {
    AllIndexed(at, i.registry, KernargUse);
    AllIndexed(at, i.registry, SignalUse);
    OptionalPictured(c, KernargBin, at(KernargUse), i.registry, kernarg, count, o.resources.kernarg);
    OptionalPictured(c, SignalBin, at(SignalUse), i.registry, signal, if signal > 0 then 64 else 0, o.resources.signal);
  }

  lemma ResourcesPictured(c: Capsule, q: Queue, at: Instants, packet: seq<byte>, code: nat, kernarg: nat, count: nat, signal: nat)
    requires ShowsDescriptor(c, code, at)
    requires q.readPointer >= 128 && FileShows(c.files, MqdBin, at(MqdUse), q.readPointer - 128, 256)
    requires ShowsIfAny(c, KernargBin, at(KernargUse), kernarg, count)
    requires ShowsIfAny(c, SignalBin, at(SignalUse), signal, if signal > 0 then 64 else 0)
    requires |packet| == 64 && code == LittleNumber(packet, 32, 8) && kernarg == LittleNumber(packet, 40, 8)
    requires signal == LittleNumber(packet, 56, 8) && count == KernargCount(c.manifest.descriptor, kernarg)
    ensures ShowsResources(c, q, packet, at)
  {
  }

  lemma CodeOwner(at: Instants, registry: Registry, code: nat, b: Block)
    requires AllOf(at, registry) && Indexed(registry)
    requires BlockAt(at(PrefixUse), code, 64) == Some(b) || BlockAt(at(DescriptorUse), code, 256) == Some(b)
    ensures V.HoldsRange(registry.allocations, b.owner, code, |b.bytes|)
  {
    AllIndexed(at, registry, PrefixUse);
    AllIndexed(at, registry, DescriptorUse);
    if BlockAt(at(PrefixUse), code, 64) == Some(b) {
      BlockIsSeen(at(PrefixUse), code, 64, b);
    } else {
      BlockIsSeen(at(DescriptorUse), code, 256, b);
    }
  }

  lemma ShownFiles(c: Capsule, i: Input, p: Picked, w: Gathering, contents: Contents)
    requires Shown(c, i, p, w, contents)
    ensures Files(c.files, p.seen) && ShowsWorker(c.files, i)
    ensures Holds(c.files, CodeBin, Raw(w.copy)) && Holds(c.files, RegistryJson, Json(OfRegistry(GatheredSnapshot(i, w))))
  {
  }

  lemma RegistryPictured(c: Capsule, i: Input, o: Observation, w: Gathering)
    requires Indexed(i.registry) && w.pointers == KernargPointers(o, i.registry.allocations) && Files(c.files, o)
    requires Holds(c.files, RegistryJson, Json(OfRegistry(GatheredSnapshot(i, w))))
    ensures ShowsRegistry(c, i)
  {
    var payload := KernargBytes(c.files);
    assert payload == PayloadOf(o.resources.kernarg);
    forall p
      ensures p in w.pointers <==> exists k: nat :: PointsInto(p, k, payload, i.registry.allocations)
    {
      AllPointers(i.registry.allocations, payload, p, i.registry);
    }
  }

  /** A committed capsule shows memory as it was at each reading, and the worker's files and trace as they are. */
  lemma CommittedIsPicture(c: Capsule, i: Input, q: Queue, f: Frontiers, o: Observation, w: Gathering, at: Instants,
                           passes: Passes)
    requires AllOf(at, i.registry) && Indexed(i.registry) && q.ringBytes >= 64
    requires Observe(PartsOf(ReadersOf(at), q, f, i.limits)) == Success(o)
    requires Shown(c, i, Picked(q, f, o), w, ContentsOf(passes))
    ensures Pictures(c, i, q, f, at, passes)
  {
    ObservedIsRead(ReadersOf(at), q, f, i.limits, o);
    var d, packet := o.head.packet.dispatch.value, o.head.block.bytes;
    PointsTo(packet, o.head.packet);
    ShownFiles(c, i, Picked(q, f, o), w, ContentsOf(passes));
    var count := KernargCount(o.resources.code.descriptor, d.kernargAddress);
    MemoryRead(at, q, f, o, d.kernelObject, d.kernargAddress, d.completionSignal);
    assert SeenAt(at, q, f, o, d.kernelObject, d.kernargAddress, count, d.completionSignal);
    PacketsPictured(c, i, q, f, o, at, d.kernelObject, d.kernargAddress, count, d.completionSignal);
    DescriptorAndState(c, i, q, f, o, at, d.kernelObject, d.kernargAddress, count, d.completionSignal);
    KernargAndSignal(c, i, q, f, o, at, d.kernelObject, d.kernargAddress, count, d.completionSignal);
    ResourcesPictured(c, q, at, packet, d.kernelObject, d.kernargAddress, count, d.completionSignal);
    CodeOwner(at, i.registry, d.kernelObject, o.resources.code.block);
    CodeIsShown(c, i, o.resources.code.block.owner, d.kernelObject, |o.resources.code.block.bytes|, passes, w.copy);
    RegistryPictured(c, i, o, w);
  }
}
