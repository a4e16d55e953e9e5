/** What an accepted capsule says, told from the bytes of its files. */
module CapsuleChecks {
  import opened AqlPacket
  import opened AqlQueue
  import opened Bytes
  import opened CapsuleDocument
  import opened KmtRegistry
  import opened Wrappers

  /** The bytes of a file that is there. */
  ghost predicate HasBytes(c: Capsule, render: Render, p: Path, b: seq<byte>) {
    p in c.files && b == render(c.files[p])
  }

  /** The frontiers did not move and are in order, and the selection is the packet at the completion frontier. */
  predicate InOrder(m: Manifest) {
    var s, f := m.selection, m.frontiersBefore;
    && m.frontiersAfter == s.frontiers == f
    && f.producerRead <= f.completion < f.published <= f.producerReserved
    && s.readIndex == s.failingIndex == f.completion && s.writeIndex == f.published
    && s.pendingCount == f.published - f.completion
    && s.ringBytes >= 64 && s.failingVa == s.ringVa + 64 * (f.completion % (s.ringBytes / 64))
    && s.nextIndex == (if f.completion + 1 < f.published then Some(f.completion + 1) else None)
    && s.completionOffset == s.doorbellOffset + 1024
  }

  /** The packet file is the dispatch at that place, and the descriptor file is what its kernel object names. */
  ghost predicate Leads(c: Capsule, render: Render, packet: seq<byte>, descriptor: seq<byte>) {
    var m := c.manifest;
    && HasBytes(c, render, PacketBin, packet) && HasBytes(c, render, DescriptorBin, descriptor)
    && |packet| == 64 && LittleNumber(packet, 0, 2) % 256 == 2
    && m.packet.va == m.selection.failingVa && DecodePacket(packet, true) == Success(m.packet.packet)
    && DecodeDescriptor(descriptor, LittleNumber(packet, 32, 8)) == Success(m.descriptor)
  }

  /** The packet behind it is there when it was published, from the slot behind. */
  ghost predicate LeadsOn(c: Capsule, render: Render) {
    var m, s := c.manifest, c.manifest.selection;
    && (m.next.Some? <==> m.frontiersBefore.completion + 1 < m.frontiersBefore.published)
    && (m.next.Some? ==>
          && NextBin in c.files && DecodePacket(render(c.files[NextBin]), false) == Success(m.next.value.packet)
          && s.ringBytes >= 64
          && m.next.value.va == s.ringVa + 64 * ((m.frontiersBefore.completion + 1) % (s.ringBytes / 64)))
  }

  /** As much kernarg as the descriptor reads, one byte where it reads none, and the signal: if the packet has them. */
  ghost predicate Follows(c: Capsule, render: Render, packet: seq<byte>)
    requires |packet| == 64
  {
    var wanted := c.manifest.descriptor.kernargRead;
    && (wanted > 0 ==> exists b :: HasBytes(c, render, KernargBin, b) && |b| == wanted)
    && (wanted == 0 && LittleNumber(packet, 40, 8) != 0 ==> exists b :: HasBytes(c, render, KernargBin, b) && |b| == 1)
    && (LittleNumber(packet, 56, 8) != 0 ==> exists b :: HasBytes(c, render, SignalBin, b) && |b| == 64)
  }

  /** The queue descriptor file holds the producer frontiers and the scratch memory. */
  ghost predicate HoldsState(c: Capsule, render: Render) {
    exists b ::
      && HasBytes(c, render, MqdBin, b) && |b| == 256
      && LittleNumber(b, 56, 8) == c.manifest.frontiersBefore.producerReserved
      && LittleNumber(b, 128, 8) == c.manifest.frontiersBefore.producerRead && LittleNumber(b, 136, 4) == 128
      && LittleNumber(b, 160, 8) == c.manifest.selection.scratchVa
      && LittleNumber(b, 168, 8) == c.manifest.selection.scratchBytes
      && LittleNumber(b, 192, 8) == c.manifest.selection.inactiveSignal
  }

  /** One allocation alone is resident code: the copied file, whole, and the descriptor lies in it where the packet says. */
  ghost predicate HoldsCode(c: Capsule, render: Render, g: RegistrySnapshot, packet: seq<byte>, descriptor: seq<byte>)
    requires |packet| == 64
  {
    exists n, code ::
      && 0 <= n < |g.referenced| && HasBytes(c, render, CodeBin, code)
      && (forall i :: 0 <= i < |g.referenced| ==> (ResidentCode in g.referenced[i].roles <==> i == n))
      && g.referenced[n].digest == Sha256(code) && g.referenced[n].identity.bytes == |code| <= c.manifest.limits.code
      && var at := LittleNumber(packet, 32, 8) - g.referenced[n].identity.va;
         && 0 <= at && at + |descriptor| <= |code| && code[at..at + |descriptor|] == descriptor
  }

  function Sum(s: seq<nat>): nat {
    if s == [] then 0 else s[0] + Sum(s[1..])
  }

  lemma {:induction false} SumOfMore(s: seq<nat>, n: nat)
    ensures Sum(s + [n]) == Sum(s) + n
  {
    if s == [] {
      assert Sum([n]) == n + Sum([n][1..]);
    } else {
      SumOfMore(s[1..], n);
      assert (s + [n])[1..] == s[1..] + [n];
    }
  }

  function SizesOf(referenced: seq<Referenced>): seq<nat> {
    seq(|referenced|, i requires 0 <= i < |referenced| => referenced[i].identity.bytes)
  }

  lemma {:induction false} TotalIsSum(referenced: seq<Referenced>)
    ensures Total(referenced) == Sum(SizesOf(referenced))
  {
    if referenced != [] {
      var init, last := referenced[..|referenced| - 1], referenced[|referenced| - 1];
      TotalIsSum(init);
      SumOfMore(SizesOf(init), last.identity.bytes);
      assert SizesOf(referenced) == SizesOf(init) + [last.identity.bytes];
    }
  }

  /** Referenced allocations were observed and hashed from end to end, within the limit; each observed one has its own key. */
  ghost predicate Accounts(m: Manifest, g: RegistrySnapshot) {
    && g.pid == m.pid && |g.observed| == m.traceAllocations && |g.queues| == m.traceQueues
    && (forall i, j :: 0 <= i < |g.observed| && 0 <= j < |g.observed| && g.observed[i].key == g.observed[j].key ==> i == j)
    && (forall i :: 0 <= i < |g.observed| ==> g.observed[i].bytes > 0)
    && (forall i :: 0 <= i < |g.referenced| ==> exists j :: 0 <= j < |g.observed| && g.observed[j] == g.referenced[i].identity)
    && (forall r :: r in g.referenced ==>
          && r.hashedVa == r.identity.va && r.hashedBytes == r.identity.bytes
          && (r.copied <==> ResidentCode in r.roles) && (r.copy == Some(CodeBin) <==> r.copied) && (r.copy == None <==> !r.copied))
    && (exists r :: r in g.referenced && QueueRing in r.roles) && (exists r :: r in g.referenced && MqdRole in r.roles)
    && Sum(SizesOf(g.referenced)) == m.hashedBytes <= m.limits.hash
  }

  /** The selected queue is the only one with its id, was not destroyed, and is the ring of the selection. */
  ghost predicate NamesQueue(s: Selection, queues: seq<Queue>) {
    exists q ::
      && multiset(queues)[q] == 1 && q.id == s.queueId && q.active
      && q.ringVa == s.ringVa && q.ringBytes == s.ringBytes && q.readPointer == s.readPointer
      && q.writePointer == s.writePointer && q.doorbellOffset == s.doorbellOffset
      && forall other :: other in queues && other.id == s.queueId ==> other == q
  }

  /** The sizes of the logs in the table. */
  function LogSizes(artifacts: seq<Artifact>): (sizes: seq<nat>) {
    if artifacts == [] then []
    else
      var before, last := LogSizes(artifacts[..|artifacts| - 1]), artifacts[|artifacts| - 1];
      if last.path.LogFile? || last.path.TraceLog? then before + [last.size] else before
  }

  lemma {:induction false} LogBytesIsSum(artifacts: seq<Artifact>)
    ensures LogBytes(artifacts) == Sum(LogSizes(artifacts))
  {
    if artifacts != [] {
      var init, last := artifacts[..|artifacts| - 1], artifacts[|artifacts| - 1];
      LogBytesIsSum(init);
      SumOfMore(LogSizes(init), last.size);
    }
  }

  /** The documents say what the manifest says, and the worker's files are there. */
  predicate HasRest(c: Capsule) {
    var m, files := c.manifest, c.files;
    && PacketJson in files && files[PacketJson] == Json(OfPacket(m.packet))
    && (m.next.Some? ==> NextJson in files && files[NextJson] == Json(OfPacket(m.next.value)))
    && DescriptorJson in files && files[DescriptorJson] == Json(OfDescriptor(m.descriptor))
    && QueueJson in files && files[QueueJson] == Json(OfSelection(m.selection))
    && LogFile("worker") in files && TraceLog in files
    && Process(Maps) in files && Process(Status) in files && Process(Stat) in files
    && Process(Cmdline) in files && Process(Exe) in files && Process(Fds) in files
  }

  /** No log file is longer than the limit of one, nor all of them than the limit of all; there is a log, and no limit is 0. */
  ghost predicate LogsFit(c: Capsule, render: Render) {
    var m := c.manifest;
    && m.limits.hash > 0 && m.limits.code > 0 && m.limits.kernarg > 0 && m.limits.log > 0
    && 0 < Sum(LogSizes(m.artifacts)) == m.logBytes <= m.limits.totalLog
    && forall p :: p in c.files && (p.LogFile? || p.TraceLog?) ==> |render(c.files[p])| <= m.limits.log
  }

  // ----- Acceptance says all of it -----

  lemma InOrderWhenSound(m: Manifest)
    requires m.frontiersBefore == m.frontiersAfter == m.selection.frontiers
    requires SelectionSound(m.selection) && NextSound(m.next, m.selection)
    ensures InOrder(m)
  {
  }

  lemma LeadsWhenLinked(c: Capsule, g: RegistrySnapshot, code: nat, render: Render)
    requires CrossLinked(c, g, code, render)
    ensures PacketBin in c.files && DescriptorBin in c.files
    ensures Leads(c, render, render(c.files[PacketBin]), render(c.files[DescriptorBin]))
    ensures Follows(c, render, render(c.files[PacketBin]))
    ensures c.manifest.packet.packet.dispatch.value.kernelObject == LittleNumber(render(c.files[PacketBin]), 32, 8)
  {
    var packet := render(c.files[PacketBin]);
    DecodedDispatch(packet);
    var d := c.manifest.packet.packet.dispatch.value;
    assert d == DispatchFields(packet);
    assert d.kernelObject == LittleNumber(packet, 32, 8) && d.kernargAddress == LittleNumber(packet, 40, 8);
    assert d.completionSignal == LittleNumber(packet, 56, 8);
    if KernargBin in c.files {
      assert HasBytes(c, render, KernargBin, render(c.files[KernargBin]));
    }
    if SignalBin in c.files {
      assert HasBytes(c, render, SignalBin, render(c.files[SignalBin]));
    }
  }

  lemma LeadsOnWhenSound(c: Capsule, render: Render)
    requires c.manifest.frontiersBefore == c.manifest.selection.frontiers && SelectionSound(c.manifest.selection)
    requires NextSound(c.manifest.next, c.manifest.selection)
    requires NextFiles(c.files, c.manifest.next, c.manifest.selection, render)
    ensures LeadsOn(c, render)
  {
    SlotBehind(c.manifest.selection);
  }

  lemma SlotBehind(s: Selection)
    requires SelectionSound(s)
    ensures s.ringBytes >= 64 && s.depth == s.ringBytes / 64 > 0
    ensures s.ringVa + (s.readIndex + 1) % s.depth * PACKET_BYTES
         == s.ringVa + 64 * ((s.frontiers.completion + 1) % (s.ringBytes / 64))
  {
  }

  lemma RestWhenLinked(c: Capsule, g: RegistrySnapshot, code: nat, render: Render)
    requires CrossLinked(c, g, code, render)
    ensures HasRest(c)
  {
  }

  lemma StateWhenLinked(c: Capsule, g: RegistrySnapshot, code: nat, render: Render)
    requires CrossLinked(c, g, code, render)
    ensures HoldsState(c, render)
  {
    assert HasBytes(c, render, MqdBin, render(c.files[MqdBin]));
  }

  lemma AccountsWhenSound(m: Manifest, g: RegistrySnapshot)
    requires RegistrySound(g, m)
    ensures Accounts(m, g)
  {
    TotalIsSum(g.referenced);
    assert RolesSound(g.referenced);
    var ring :| 0 <= ring < |g.referenced| && QueueRing in g.referenced[ring].roles;
    var mqd :| 0 <= mqd < |g.referenced| && MqdRole in g.referenced[mqd].roles;
    assert g.referenced[ring] in g.referenced && g.referenced[mqd] in g.referenced;
    forall r | r in g.referenced
      ensures ReferenceSound(r, g.observed)
    {
      var i :| 0 <= i < |g.referenced| && g.referenced[i] == r;
    }
  }

  lemma OnlyOnce(queues: seq<Queue>, i: nat)
    requires i < |queues| && forall j :: 0 <= j < |queues| && queues[j] == queues[i] ==> j == i
    ensures multiset(queues)[queues[i]] == 1
  {
    assert queues == queues[..i] + [queues[i]] + queues[i + 1..];
    assert queues[i] !in queues[..i] && queues[i] !in queues[i + 1..];
  }

  lemma QueueWhenLinked(c: Capsule, g: RegistrySnapshot, code: nat, render: Render)
    requires CrossLinked(c, g, code, render)
    ensures NamesQueue(c.manifest.selection, g.queues)
  {
    var s := c.manifest.selection;
    assert QueueSound(g.queues, s);
    var i :|
      && 0 <= i < |g.queues|
      && (forall j :: 0 <= j < |g.queues| && g.queues[j].id == s.queueId ==> j == i)
      && g.queues[i].id == s.queueId && g.queues[i].active
      && g.queues[i].ringVa == s.ringVa && g.queues[i].ringBytes == s.ringBytes
      && g.queues[i].readPointer == s.readPointer && g.queues[i].writePointer == s.writePointer
      && g.queues[i].doorbellOffset == s.doorbellOffset;
    OnlyOnce(g.queues, i);
  }

  lemma LogsWhenLinked(c: Capsule, g: RegistrySnapshot, code: nat, render: Render)
    requires CrossLinked(c, g, code, render)
    ensures LogsFit(c, render)
  {
    LogBytesIsSum(c.manifest.artifacts);
  }

  lemma CodeIsHeld(c: Capsule, g: RegistrySnapshot, code: nat, render: Render, packet: seq<byte>, descriptor: seq<byte>,
                   copy: seq<byte>)
    requires |packet| == 64 && HasBytes(c, render, CodeBin, copy) && CodeSound(g.referenced, code, c.manifest.limits, copy)
    requires c.manifest.descriptor.size == |descriptor|
    requires CodeHoldsDescriptor(copy, g.referenced[code].identity.va, descriptor, c.manifest.descriptor,
                                 LittleNumber(packet, 32, 8))
    ensures HoldsCode(c, render, g, packet, descriptor)
  {
    var at := LittleNumber(packet, 32, 8) - g.referenced[code].identity.va;
    assert copy[at..][..|descriptor|] == copy[at..at + |descriptor|];
  }

  /**
   What `verify` promises of a capsule that it accepts, from the bytes of the
   files: the packet at the completion frontier leads to the descriptor, that
   lies where it says in the one copied allocation, and everything else that
   the packet, the descriptor and the queue need is there.
   */
  lemma AcceptedMeans(c: Capsule, render: Render)
    requires Verifies(c, render)
    ensures InOrder(c.manifest) && LeadsOn(c, render) && HoldsState(c, render) && HasRest(c) && LogsFit(c, render)
    ensures exists packet, descriptor, g ::
              && Leads(c, render, packet, descriptor) && Follows(c, render, packet)
              && RegistryJson in c.files && c.files[RegistryJson] == Json(OfRegistry(g))
              && HoldsCode(c, render, g, packet, descriptor)
              && Accounts(c.manifest, g) && NamesQueue(c.manifest.selection, g.queues)
  {
    var g, code :| CrossLinked(c, g, code, render) && HoldsDescriptor(c, g, code, render);
    InOrderWhenSound(c.manifest);
    LeadsWhenLinked(c, g, code, render);
    LeadsOnWhenSound(c, render);
    RestWhenLinked(c, g, code, render);
    StateWhenLinked(c, g, code, render);
    AccountsWhenSound(c.manifest, g);
    QueueWhenLinked(c, g, code, render);
    LogsWhenLinked(c, g, code, render);
    var packet, descriptor := render(c.files[PacketBin]), render(c.files[DescriptorBin]);
    DescriptorSound(descriptor, LittleNumber(packet, 32, 8));
    CodeIsHeld(c, g, code, render, packet, descriptor, render(c.files[CodeBin]));
    assert Leads(c, render, packet, descriptor);
  }

  lemma TableOfAccepted(c: Capsule, render: Render)
    requires Verifies(c, render)
    ensures TableSound(c.manifest.artifacts, c.files, render)
  {
  }

  lemma SameTable(artifacts: seq<Artifact>, files: map<Path, Content>, others: map<Path, Content>, render: Render)
    requires TableSound(artifacts, files, render) && TableSound(artifacts, others, render)
    ensures forall p :: p in files ==> p in others && render(files[p]) == render(others[p])
  {
    forall p | p in files
      ensures p in others && render(files[p]) == render(others[p])
    {
      var i :| 0 <= i < |artifacts| && artifacts[i].path == p;
      assert Sha256(render(files[p])) == artifacts[i].digest == Sha256(render(others[p]));
    }
  }

  /** The same files, with the same bytes. */
  ghost predicate SameFiles(files: map<Path, Content>, others: map<Path, Content>, render: Render) {
    files.Keys == others.Keys && forall p :: p in files ==> render(files[p]) == render(others[p])
  }

  lemma TableBinds(artifacts: seq<Artifact>, files: map<Path, Content>, others: map<Path, Content>, render: Render)
    requires TableSound(artifacts, files, render) && TableSound(artifacts, others, render)
    ensures SameFiles(files, others, render)
  {
    SameTable(artifacts, files, others, render);
    SameTable(artifacts, others, files, render);
  }

  /** The manifest binds the files: one manifest is accepted with one set of files only. */
  lemma ManifestBindsFiles(c: Capsule, d: Capsule, render: Render)
    requires Verifies(c, render) && Verifies(d, render) && c.manifest == d.manifest
    ensures SameFiles(c.files, d.files, render)
  {
    TableOfAccepted(c, render);
    TableOfAccepted(d, render);
    TableBinds(c.manifest.artifacts, c.files, d.files, render);
  }
}
