/** Captures of real memory: what `verify` says of them depends on one thing alone. */
module CapsuleMemory {
  import opened AqlPacket
  import opened AqlQueue
  import opened Bytes
  import opened CapsuleAgreement
  import opened CapsuleCapture
  import opened CapsuleDocument
  import opened CapsuleFiles
  import opened CapsuleRoles
  import opened CapsuleRun
  import opened KmtRegistry
  import opened Wrappers

  function BlockAt(m: Memory, va: nat, count: nat): Option<Block> {
    var read := Read(m, va, count);
    if read.Some? then Some(Block(read.value.0, read.value.1)) else None
  }

  function ReaderOf(m: Memory): Reader {
    Reader((va: nat, count: nat) => BlockAt(m, va, count), (va: nat, count: nat) => Resolve(m.registry, va, count))
  }

  /** The readings of memory before anything is written; the descriptor is read twice when it is long. */
  datatype Use = HeadUse | NextUse | PrefixUse | DescriptorUse | KernargUse | SignalUse | MqdUse

  /** Memory as it is at each of those readings. */
  type Instants = Use -> Memory

  ghost predicate AllOf(at: Instants, registry: Registry) {
    forall use :: at(use).registry == registry
  }

  function CodeReader(at: Instants): Reader {
    Reader((va: nat, count: nat) => BlockAt(at(CodeUse(count)), va, count),
           (va: nat, count: nat) => Resolve(at(PrefixUse).registry, va, count))
  }

  /** Which of the two readings of the descriptor has this length. */
  function CodeUse(count: nat): Use {
    if count == DESCRIPTOR_SIZE then PrefixUse else DescriptorUse
  }

  function ReadersOf(at: Instants): Readers {
    Readers(ReaderOf(at(HeadUse)), ReaderOf(at(NextUse)), CodeReader(at), ReaderOf(at(KernargUse)),
            ReaderOf(at(SignalUse)), ReaderOf(at(MqdUse)))
  }

  lemma ReaderReads(m: Memory)
    ensures Reads(ReaderOf(m), m.registry)
  {
  }

  lemma CodeReaderReads(at: Instants, registry: Registry)
    requires AllOf(at, registry)
    ensures Reads(CodeReader(at), registry)
  {
    var reader := CodeReader(at);
    forall va: nat, count: nat {:trigger reader.read(va, count)} | reader.read(va, count).Some?
      ensures |reader.read(va, count).value.bytes| == count
      ensures reader.read(va, count).value.owner in registry.allocations
    {
      assert reader.read(va, count) == BlockAt(at(CodeUse(count)), va, count);
    }
    forall va: nat, count: nat {:trigger reader.resolve(va, count)} | reader.resolve(va, count).Some?
      ensures reader.resolve(va, count).value in registry.allocations
    {
      assert reader.resolve(va, count) == Resolve(at(PrefixUse).registry, va, count);
    }
  }

  lemma ReadersRead(at: Instants, registry: Registry)
    requires AllOf(at, registry)
    ensures AllRead(ReadersOf(at), registry)
  {
    assert at(HeadUse).registry == registry && at(NextUse).registry == registry && at(KernargUse).registry == registry;
    assert at(SignalUse).registry == registry && at(MqdUse).registry == registry;
    CodeReaderReads(at, registry);
    ReaderReads(at(HeadUse));
    ReaderReads(at(NextUse));
    ReaderReads(at(KernargUse));
    ReaderReads(at(SignalUse));
    ReaderReads(at(MqdUse));
  }

  /** The whole contents of an allocation. */
  function WholeOf(m: Memory, a: Allocation): (bytes: Option<seq<byte>>)
    ensures bytes.Some? ==> |bytes.value| == a.bytes
  {
    if a.bytes == 0 then None else ReadIn(m, a, a.va, a.bytes)
  }

  /**
   What hashing or copying each allocation sees.  A copy that takes a while sees
   each byte when its chunk is read; that mixture is the memory of the copy.
   */
  type Passes = Allocation -> Memory

  function ContentsOf(passes: Passes): Contents {
    (a: Allocation) => WholeOf(passes(a), a)
  }

  lemma ContentsAreWhole(passes: Passes)
    ensures WholeContents(ContentsOf(passes))
  {
    var contents := ContentsOf(passes);
    forall a {:trigger contents(a)}
      ensures contents(a).Some? ==> |contents(a).value| == a.bytes
    {
      assert contents(a) == WholeOf(passes(a), a);
    }
  }

  lemma PartOfRead(source: Source, offset: nat, size: nat, low: nat, count: nat)
    requires ReadAt(source, offset, size).Some? && low + count <= size && count > 0
    ensures ReadAt(source, offset + low, count) == Some(ReadAt(source, offset, size).value[low..][..count])
  {
    var whole, part := ReadAt(source, offset, size).value, ReadAt(source, offset + low, count);
    forall i | offset + low <= i < offset + low + count
      ensures i in source
    {
      assert offset + (i - offset) in source;
    }
    forall i | 0 <= i < count
      ensures part.value[i] == whole[low..][..count][i]
    {
      assert whole[low + i] == source[offset + (low + i)];
    }
    assert part.value == whole[low..][..count];
  }

  /** If the whole allocation can be read, so can every part of it, with the same bytes. */
  lemma PartOfWhole(m: Memory, a: Allocation, va: nat, count: nat)
    requires a.Contains(va, count) && WholeOf(m, a).Some?
    ensures ReadIn(m, a, va, count) == Some(WholeOf(m, a).value[va - a.va..][..count])
  {
    PartOfRead(SourceOf(m, a).value, a.offset, a.bytes, va - a.va, count);
  }

  /** The code at the time of copying still holds the descriptor that was read. */
  predicate DescriptorUnchanged(copied: Memory, code: Code, kernelObject: nat) {
    && code.block.owner.Contains(kernelObject, |code.block.bytes|)
    && ReadIn(copied, code.block.owner, kernelObject, |code.block.bytes|) == Some(code.block.bytes)
  }

  lemma CodeLiesInOwner(at: Instants, registry: Registry, va: nat)
    requires AllOf(at, registry) && ReadCode(CodeReader(at), va).Success?
    ensures var code := ReadCode(CodeReader(at), va).value;
            && DescriptorUnchanged(at(CodeUse(|code.block.bytes|)), code, va)
            && code.descriptor.size == |code.block.bytes|
  {
    ReadersRead(at, registry);
    CodeFacts(CodeReader(at), registry, va);
    var code := ReadCode(CodeReader(at), va).value;
    DescriptorSound(code.block.bytes, va);
    assert BlockAt(at(CodeUse(|code.block.bytes|)), va, |code.block.bytes|) == Some(code.block);
  }

  /** The last check of `verify` says exactly that. */
  lemma HoldsExactly(copied: Memory, code: Code, va: nat, copy: seq<byte>)
    requires WholeOf(copied, code.block.owner) == Some(copy)
    requires code.block.owner.Contains(va, |code.block.bytes|) && code.descriptor.size == |code.block.bytes|
    ensures CodeHoldsDescriptor(copy, code.block.owner.va, code.block.bytes, code.descriptor, va)
       <==> DescriptorUnchanged(copied, code, va)
  {
    PartOfWhole(copied, code.block.owner, va, |code.block.bytes|);
  }

  lemma SnapshotIsUnique(c: Capsule, g: RegistrySnapshot, index: nat, h: RegistrySnapshot, other: nat, render: Render)
    requires SnapshotSound(c, g, index, render) && SnapshotSound(c, h, other, render)
    ensures h == g && other == index
  {
    assert Json(OfRegistry(h)) == Json(OfRegistry(g));
    assert ResidentCode in g.referenced[other].roles;
  }

  lemma LinkedSnapshot(c: Capsule, g: RegistrySnapshot, index: nat, render: Render)
    requires CrossLinked(c, g, index, render)
    ensures SnapshotSound(c, g, index, render)
  {
  }

  /** The registry file and the resident code record are unique, so `verify` looks nowhere else. */
  lemma VerifiesExactly(c: Capsule, g: RegistrySnapshot, index: nat, render: Render)
    requires CrossLinked(c, g, index, render)
    ensures Verifies(c, render) <==> HoldsDescriptor(c, g, index, render)
  {
    LinkedSnapshot(c, g, index, render);
    if Verifies(c, render) {
      var h, other :| CrossLinked(c, h, other, render) && HoldsDescriptor(c, h, other, render);
      LinkedSnapshot(c, h, other, render);
      SnapshotIsUnique(c, g, index, h, other, render);
    }
  }

  /** What the capture of a selected queue starts from; `words` are the readings of its frontiers. */
  ghost predicate Chosen(i: Input, words: Words, choice: Choice) {
    && Indexed(i.registry)
    && choice.queue in i.registry.queues && choice.queue.active
    && QueueFrontiers(words, choice.queue) == Success(choice.frontiers)
    && choice.frontiers.completion < choice.frontiers.published
    && Budgets(i.limits) && |i.worker| > 0
  }

  lemma ChosenIsSelected(i: Input, words: Words, choice: Choice)
    requires Chosen(i, words, choice)
    ensures Selected(i, choice.queue, choice.frontiers)
  {
    FrontiersInWindow(words, choice.queue);
  }

  lemma ObservedIsSound(at: Instants, registry: Registry, q: Queue, f: Frontiers, l: Limits, o: Observation)
    requires AllOf(at, registry) && q.ringBytes >= PACKET_BYTES
    requires Observe(PartsOf(ReadersOf(at), q, f, l)) == Success(o)
    ensures Located(o, registry, q, f) && Interpreted(o)
    ensures ReadCode(CodeReader(at), o.head.packet.dispatch.value.kernelObject) == Success(o.resources.code)
  {
    ReadersRead(at, registry);
    ObservationIsSound(ReadersOf(at), registry, q, f, l, o);
    ObservedCode(ReadersOf(at), q, f, l, o);
  }

  /**
   Every reading may find other bytes: the frontier words, the packets, the
   descriptor, kernarg, signal and queue state, each allocation that is hashed
   or copied, and the frontiers at the end.  Whatever changes, a committed
   capsule is accepted exactly when the pass that copied the code found the
   descriptor bytes that had been read.
   */
  method CaptureMemory(i: Input, words: Words, at: Instants, passes: Passes, last: Words, choice: Choice, render: Render)
    returns (r: Result<Capsule, string>)
    requires IsRender(render) && Chosen(i, words, choice) && AllOf(at, i.registry)
    ensures InWindow(choice.frontiers, choice.queue.ringBytes)
    ensures var parts := PartsOf(ReadersOf(at), choice.queue, choice.frontiers, i.limits);
            && (r.Success? <==>
                  Capturable(i, parts, choice.frontiers, ContentsOf(passes), QueueFrontiers(last, choice.queue)))
            && (r.Success? ==>
                  var o := Observe(parts).value;
                  var code := o.resources.code;
                  && o.head.packet.dispatch.Some?
                  && (Verifies(r.value, render) <==>
                        DescriptorUnchanged(passes(code.block.owner), code, o.head.packet.dispatch.value.kernelObject))
                  && (passes(code.block.owner) == at(CodeUse(|code.block.bytes|)) ==> Verifies(r.value, render))
                  && exists w :: Shown(r.value, i, Picked(choice.queue, choice.frontiers, o), w, ContentsOf(passes)))
  {
    var q, f := choice.queue, choice.frontiers;
    ChosenIsSelected(i, words, choice);
    var parts := PartsOf(ReadersOf(at), q, f, i.limits);
    if Observe(parts).Success? {
      ObservedIsSound(at, i.registry, q, f, i.limits, Observe(parts).value);
    }
    ContentsAreWhole(passes);
    r := Capture(i, q, f, parts, ContentsOf(passes), QueueFrontiers(last, q), render);
    if r.Success? {
      CommittedVerifiesExactly(r.value, Observe(parts).value, at, i.registry, passes, render);
    }
  }

  lemma CommittedVerifiesExactly(c: Capsule, o: Observation, at: Instants, registry: Registry, passes: Passes,
                                 render: Render)
    requires IsRender(render) && AllOf(at, registry)
    requires exists g, code :: Committed(c, g, code, o, ContentsOf(passes), render)
    requires o.head.packet.dispatch.Some?
    requires ReadCode(CodeReader(at), o.head.packet.dispatch.value.kernelObject) == Success(o.resources.code)
    ensures var owner, va := o.resources.code.block.owner, o.head.packet.dispatch.value.kernelObject;
            && (Verifies(c, render) <==> DescriptorUnchanged(passes(owner), o.resources.code, va))
            && (passes(owner) == at(CodeUse(|o.resources.code.block.bytes|)) ==> Verifies(c, render))
  {
    var g, code :| Committed(c, g, code, o, ContentsOf(passes), render);
    var owner, va := o.resources.code.block.owner, o.head.packet.dispatch.value.kernelObject;
    CodeLiesInOwner(at, registry, va);
    var copy := ContentsOf(passes)(owner).value;
    HoldsExactly(passes(owner), o.resources.code, va, copy);
    CommittedHolds(c, g, code, o, ContentsOf(passes), copy, render);
    VerifiesExactly(c, g, code, render);
  }

  lemma CommittedHolds(c: Capsule, g: RegistrySnapshot, index: nat, o: Observation, contents: Contents, copy: seq<byte>,
                       render: Render)
    requires IsRender(render) && Committed(c, g, index, o, contents, render)
    requires contents(o.resources.code.block.owner) == Some(copy) && o.head.packet.dispatch.Some?
    ensures HoldsDescriptor(c, g, index, render)
       <==> CodeHoldsDescriptor(copy, o.resources.code.block.owner.va, o.resources.code.block.bytes,
                                o.resources.code.descriptor, o.head.packet.dispatch.value.kernelObject)
  {
  }
}
