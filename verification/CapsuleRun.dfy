/** One run of `capture`, and the theorem that `verify` accepts what it commits. */
module CapsuleRun {
  import opened AqlPacket
  import opened AqlQueue
  import opened Bytes
  import opened CapsuleAgreement
  import opened CapsuleCapture
  import opened CapsuleDocument
  import opened CapsuleFiles
  import opened CapsuleRoles
  import opened KmtRegistry
  import opened Wrappers

  /** The selected queue, its frontiers, and what was read about its head. */
  datatype Picked = Picked(queue: Queue, frontiers: Frontiers, seen: Observation)

  ghost predicate SoundPick(p: Picked, registry: Registry) {
    && InWindow(p.frontiers, p.queue.ringBytes) && p.frontiers.completion < p.frontiers.published
    && p.queue in registry.queues && p.queue.active
    && Located(p.seen, registry, p.queue, p.frontiers)
  }

  function PickedSelection(p: Picked): Selection
    requires |p.seen.mqd.block.bytes| == MQD_SIZE && p.frontiers.completion <= p.frontiers.published
  {
    SelectionOf(p.queue, p.frontiers, p.seen)
  }

  function SnapshotOf(i: Input, records: seq<Referenced>, pointers: seq<Pointer>): RegistrySnapshot {
    RegistrySnapshot(i.registry.pid, IdentitiesOf(i.registry.allocations), records, i.registry.queues, pointers)
  }

  /** Everything but the logs. */
  function FrontEntries(p: Picked, code: seq<byte>, g: RegistrySnapshot, s: Selection, snapshots: Snapshots): seq<Entry> {
    PacketEntries(p.seen) + ResourceEntries(p.seen.resources, p.seen.mqd.block.bytes)
    + [Entry(CodeBin, Raw(code)), Entry(RegistryJson, Json(OfRegistry(g))), Entry(QueueJson, Json(OfSelection(s)))]
    + ProcessEntries(snapshots)
  }

  function BackEntries(i: Input): seq<Entry> {
    [Entry(LogFile("worker"), Raw(i.worker)), Entry(TraceLog, Raw(i.trace))] + LogEntries(i.logs)
  }

  function ManifestOf(i: Input, p: Picked, s: Selection, records: nat, total: nat, logBytes: nat, artifacts: seq<Artifact>):
    Manifest
  {
    Manifest(
      i.registry.pid, p.frontiers, p.frontiers, i.limits, logBytes, artifacts, s, PacketOf(p.seen), NextDocument(p.seen),
      p.seen.resources.code.descriptor, records, |i.registry.allocations|, total,
      |i.registry.allocations|, |i.registry.queues|)
  }

  // ----- The cross-links, one by one -----

  lemma SelectionIsSound(p: Picked, registry: Registry)
    requires SoundPick(p, registry)
    ensures SelectionSound(PickedSelection(p)) && NextSound(NextDocument(p.seen), PickedSelection(p))
  {
  }

  lemma PacketIsSound(p: Picked, registry: Registry)
    requires SoundPick(p, registry) && Interpreted(p.seen)
    ensures PacketSound(PacketOf(p.seen), PickedSelection(p), p.seen.resources.code.descriptor)
  {
    DescriptorSound(p.seen.resources.code.block.bytes, p.seen.head.packet.dispatch.value.kernelObject);
  }

  lemma RecordsAreSound(i: Input, roles: Roles, records: seq<Referenced>, contents: Contents, code: Key)
    requires Numbered(i.registry.allocations) && RolesFor(roles, i.registry.allocations, code)
    requires Recorded(records, roles.Keys, roles, i.registry.allocations, contents)
    ensures forall n :: 0 <= n < |records| ==> ReferenceSound(records[n], IdentitiesOf(i.registry.allocations))
  {
    var allocations := i.registry.allocations;
    forall n | 0 <= n < |records|
      ensures ReferenceSound(records[n], IdentitiesOf(allocations))
    {
      assert IsRecord(records[n], roles, allocations, contents);
      var k := records[n].identity.key;
      assert IdentitiesOf(allocations)[k.ordinal - 1] == IdentityOf(At(allocations, k));
    }
  }

  lemma RoleIsRecorded(roles: Roles, records: seq<Referenced>, allocations: seq<Allocation>, contents: Contents,
                       a: Allocation, role: Role) returns (n: nat)
    requires Recorded(records, roles.Keys, roles, allocations, contents) && HasRole(roles, a, role)
    ensures n < |records| && records[n].identity.key == KeyOf(a) && role in records[n].roles
  {
    n :| 0 <= n < |records| && records[n].identity.key == KeyOf(a);
    assert IsRecord(records[n], roles, allocations, contents);
  }

  lemma RolesAreRecorded(roles: Roles, records: seq<Referenced>, allocations: seq<Allocation>, contents: Contents,
                         o: Observation)
    requires Recorded(records, roles.Keys, roles, allocations, contents) && SoundRoles(roles, allocations, o)
    ensures RolesSound(records)
  {
    var ring := RoleIsRecorded(roles, records, allocations, contents, o.head.block.owner, QueueRing);
    var mqd := RoleIsRecorded(roles, records, allocations, contents, o.mqd.block.owner, MqdRole);
  }

  lemma RegistryIsSound(i: Input, p: Picked, roles: Roles, records: seq<Referenced>, pointers: seq<Pointer>,
                        contents: Contents, m: Manifest)
    requires SoundPick(p, i.registry) && Numbered(i.registry.allocations)
    requires SoundRoles(roles, i.registry.allocations, p.seen)
    requires Recorded(records, roles.Keys, roles, i.registry.allocations, contents)
    requires m.pid == i.registry.pid && m.observedCount == m.traceAllocations == |i.registry.allocations|
    requires m.traceQueues == |i.registry.queues| && m.allocationCount == |records|
    requires m.hashedBytes == Weight(roles.Keys, i.registry.allocations) <= m.limits.hash
    ensures RegistrySound(SnapshotOf(i, records, pointers), m)
  {
    RecordsAreSound(i, roles, records, contents, KeyOf(p.seen.resources.code.block.owner));
    RolesAreRecorded(roles, records, i.registry.allocations, contents, p.seen);
    IdentitiesDiffer(i.registry.allocations);
  }

  lemma IdentitiesDiffer(allocations: seq<Allocation>)
    requires Numbered(allocations)
    ensures DistinctKeys(IdentitiesOf(allocations))
    ensures forall n :: 0 <= n < |allocations| ==> IdentitiesOf(allocations)[n].bytes > 0
  {
  }

  lemma CodeIsSound(i: Input, p: Picked, roles: Roles, records: seq<Referenced>, contents: Contents, copy: seq<byte>)
    returns (code: nat)
    requires SoundPick(p, i.registry) && Numbered(i.registry.allocations)
    requires SoundRoles(roles, i.registry.allocations, p.seen)
    requires Recorded(records, roles.Keys, roles, i.registry.allocations, contents)
    requires contents(p.seen.resources.code.block.owner) == Some(copy)
    requires |copy| == p.seen.resources.code.block.owner.bytes <= i.limits.code
    ensures CodeSound(records, code, i.limits, copy)
    ensures records[code].identity.va == p.seen.resources.code.block.owner.va
  {
    var allocations, owner := i.registry.allocations, p.seen.resources.code.block.owner;
    KeyIsIndex(allocations, owner);
    code := RoleIsRecorded(roles, records, allocations, contents, owner, ResidentCode);
    assert IsRecord(records[code], roles, allocations, contents);
    forall n | 0 <= n < |records|
      ensures ResidentCode in records[n].roles <==> n == code
    {
      assert IsRecord(records[n], roles, allocations, contents);
    }
  }

  lemma QueueIsSound(i: Input, p: Picked)
    requires SoundPick(p, i.registry) && Indexed(i.registry)
    ensures QueueSound(i.registry.queues, PickedSelection(p))
  {
    var n :| 0 <= n < |i.registry.queues| && i.registry.queues[n] == p.queue;
    forall j | 0 <= j < |i.registry.queues| && i.registry.queues[j].id == p.queue.id
      ensures j == n
    {
    }
  }

  lemma LogBytesAreCounted(i: Input, front: seq<Entry>, render: Render)
    requires IsRender(render) && forall n :: 0 <= n < |front| ==> !IsLog(front[n].path)
    ensures LogBytes(ArtifactsOf(front + BackEntries(i), render)) == |i.worker| + |i.trace| + LogTotal(i.logs)
  {
    LogBytesOfTable(front + BackEntries(i), render);
    LogSizeOfMore(front, BackEntries(i), render);
    NoLogSize(front, render);
    var worker, trace := Entry(LogFile("worker"), Raw(i.worker)), Entry(TraceLog, Raw(i.trace));
    LogSizeOfMore([worker, trace], LogEntries(i.logs), render);
    LogSizeOfMore([worker], [trace], render);
    assert [worker] + [trace] == [worker, trace];
    LogSizeOfLogs(i.logs, render);
  }

  lemma LogsAreSound(i: Input, front: seq<Entry>, render: Render)
    requires IsRender(render) && forall n :: 0 <= n < |front| ==> !IsLog(front[n].path)
    requires |i.worker| <= i.limits.log && |i.trace| <= i.limits.log
    requires LogsFit(i.logs, |i.worker| + |i.trace|, i.limits)
    ensures LogsSound(ArtifactsOf(front + BackEntries(i), render), i.limits,
                      |i.worker| + |i.trace| + LogTotal(i.logs))
  {
    LogBytesAreCounted(i, front, render);
    var entries := front + BackEntries(i);
    forall n | 0 <= n < |entries| && IsLog(entries[n].path)
      ensures |render(entries[n].content)| <= i.limits.log
    {
      assert entries[n] == BackEntries(i)[n - |front|];
    }
  }

  lemma {:induction false} LogSizeOfLogs(logs: seq<Log>, render: Render)
    requires IsRender(render)
    ensures LogSize(LogEntries(logs), render) == LogTotal(logs)
  {
    if logs != [] {
      var init := logs[..|logs| - 1];
      LogSizeOfLogs(init, render);
      assert LogEntries(logs)[..|logs| - 1] == LogEntries(init);
    }
  }

  // ----- The files -----

  /** Every file that the checks read, with its content. */
  ghost predicate Written(entries: seq<Entry>, i: Input, p: Picked, code: seq<byte>, g: RegistrySnapshot, s: Selection) {
    var o := p.seen;
    && Entry(PacketBin, Raw(o.head.block.bytes)) in entries
    && Entry(PacketJson, Json(OfPacket(PacketOf(o)))) in entries
    && (o.next.Some? ==>
          && Entry(NextBin, Raw(o.next.value.block.bytes)) in entries
          && Entry(NextJson, Json(OfPacket(NextDocument(o).value))) in entries)
    && Entry(DescriptorBin, Raw(o.resources.code.block.bytes)) in entries
    && Entry(DescriptorJson, Json(OfDescriptor(o.resources.code.descriptor))) in entries
    && (o.resources.kernarg.Some? ==> Entry(KernargBin, Raw(o.resources.kernarg.value.bytes)) in entries)
    && (o.resources.signal.Some? ==> Entry(SignalBin, Raw(o.resources.signal.value.bytes)) in entries)
    && Entry(MqdBin, Raw(o.mqd.block.bytes)) in entries
    && Entry(CodeBin, Raw(code)) in entries
    && Entry(RegistryJson, Json(OfRegistry(g))) in entries
    && Entry(QueueJson, Json(OfSelection(s))) in entries
    && Entry(LogFile("worker"), Raw(i.worker)) in entries
    && Entry(TraceLog, Raw(i.trace)) in entries
    && (forall e :: e in ProcessEntries(i.snapshots) ==> e in entries)
  }

  /** The logs are all there, and no file for what was not there to read. */
  ghost predicate RestWritten(entries: seq<Entry>, i: Input, o: Observation) {
    && (forall e :: e in LogEntries(i.logs) ==> e in entries)
    && (o.next.None? ==> Absent(entries, NextBin)) && (o.resources.kernarg.None? ==> Absent(entries, KernargBin))
    && (o.resources.signal.None? ==> Absent(entries, SignalBin))
  }

  lemma RestIsWritten(i: Input, p: Picked, code: seq<byte>, g: RegistrySnapshot, s: Selection)
    ensures RestWritten(FrontEntries(p, code, g, s, i.snapshots) + BackEntries(i), i, p.seen)
  {
    var o := p.seen;
    var front, back := FrontEntries(p, code, g, s, i.snapshots), BackEntries(i);
    LogsInBack(i, front);
    OptionalAbsent(o, code, g, s, i.snapshots);
    assert forall n :: 0 <= n < |back| ==> back[n].path.LogFile? || back[n].path.TraceLog?;
    AbsentInBoth(front, back, NextBin);
    AbsentInBoth(front, back, KernargBin);
    AbsentInBoth(front, back, SignalBin);
  }

  lemma LogsInBack(i: Input, front: seq<Entry>)
    ensures forall e :: e in LogEntries(i.logs) ==> e in front + BackEntries(i)
  {
  }

  lemma AbsentInBoth(a: seq<Entry>, b: seq<Entry>, path: Path)
    requires !IsLog(path) && forall n :: 0 <= n < |b| ==> IsLog(b[n].path)
    ensures Absent(a, path) ==> Absent(a + b, path)
  {
  }

  lemma OptionalAbsent(o: Observation, code: seq<byte>, g: RegistrySnapshot, s: Selection, snapshots: Snapshots)
    ensures var front := PacketEntries(o) + ResourceEntries(o.resources, o.mqd.block.bytes)
                         + [Entry(CodeBin, Raw(code)), Entry(RegistryJson, Json(OfRegistry(g))), Entry(QueueJson, Json(OfSelection(s)))]
                         + ProcessEntries(snapshots);
            && (o.next.None? ==> Absent(front, NextBin)) && (o.resources.kernarg.None? ==> Absent(front, KernargBin))
            && (o.resources.signal.None? ==> Absent(front, SignalBin))
  {
    var packets, resources := PacketEntries(o), ResourceEntries(o.resources, o.mqd.block.bytes);
    NextAbsent(o);
    ResourcesAbsent(o.resources, o.mqd.block.bytes);
  }

  lemma NextAbsent(o: Observation)
    ensures o.next.None? ==> Absent(PacketEntries(o), NextBin)
  {
  }

  lemma ResourcesAbsent(r: Resources, mqd: seq<byte>)
    ensures r.kernarg.None? ==> Absent(ResourceEntries(r, mqd), KernargBin)
    ensures r.signal.None? ==> Absent(ResourceEntries(r, mqd), SignalBin)
  {
  }

  lemma PacketsAreWritten(o: Observation)
    ensures var s := PacketEntries(o);
            && Entry(PacketBin, Raw(o.head.block.bytes)) in s
            && Entry(PacketJson, Json(OfPacket(PacketOf(o)))) in s
            && (o.next.Some? ==>
                  && Entry(NextBin, Raw(o.next.value.block.bytes)) in s
                  && Entry(NextJson, Json(OfPacket(NextDocument(o).value))) in s)
  {
    var s := PacketEntries(o);
    assert s[0] in s && s[1] in s;
    if o.next.Some? {
      assert s[2] in s && s[3] in s;
    }
  }

  lemma ResourcesAreWritten(r: Resources, mqd: seq<byte>)
    ensures var s := ResourceEntries(r, mqd);
            && Entry(DescriptorBin, Raw(r.code.block.bytes)) in s
            && Entry(DescriptorJson, Json(OfDescriptor(r.code.descriptor))) in s
            && (r.kernarg.Some? ==> Entry(KernargBin, Raw(r.kernarg.value.bytes)) in s)
            && (r.signal.Some? ==> Entry(SignalBin, Raw(r.signal.value.bytes)) in s)
            && Entry(MqdBin, Raw(mqd)) in s
  {
    var s := ResourceEntries(r, mqd);
    assert s[0] in s && s[1] in s && s[|s| - 1] in s;
    if r.kernarg.Some? {
      assert s[2] in s;
    }
    if r.signal.Some? {
      assert s[|s| - 2] in s;
    }
  }

  lemma AllAreWritten(i: Input, p: Picked, code: seq<byte>, g: RegistrySnapshot, s: Selection)
    ensures Written(FrontEntries(p, code, g, s, i.snapshots) + BackEntries(i), i, p, code, g, s)
  {
    var o := p.seen;
    var packets, resources := PacketEntries(o), ResourceEntries(o.resources, o.mqd.block.bytes);
    var middle := [Entry(CodeBin, Raw(code)), Entry(RegistryJson, Json(OfRegistry(g))), Entry(QueueJson, Json(OfSelection(s)))];
    var process := ProcessEntries(i.snapshots);
    var fixed := [Entry(LogFile("worker"), Raw(i.worker)), Entry(TraceLog, Raw(i.trace))];
    PacketsAreWritten(o);
    ResourcesAreWritten(o.resources, o.mqd.block.bytes);
    assert middle[0] in middle && middle[1] in middle && middle[2] in middle;
    assert fixed[0] in fixed && fixed[1] in fixed;
    InFive(packets, resources, middle, process, fixed, LogEntries(i.logs));
    assert FrontEntries(p, code, g, s, i.snapshots) + BackEntries(i)
        == packets + resources + middle + process + (fixed + LogEntries(i.logs));
  }

  lemma InFive(a: seq<Entry>, b: seq<Entry>, c: seq<Entry>, d: seq<Entry>, e: seq<Entry>, f: seq<Entry>)
    ensures forall x :: x in a || x in b || x in c || x in d || x in e ==> x in a + b + c + d + (e + f)
  {
  }

  /** The process files, one by one. */
  lemma ProcessIsWritten(s: Snapshots, entries: seq<Entry>)
    requires Distinct(entries) && forall e :: e in ProcessEntries(s) ==> e in entries
    ensures forall name :: Process(name) in FilesOf(entries)
  {
    var listed := ProcessEntries(s);
    forall n | 0 <= n < 6
      ensures listed[n].path in FilesOf(entries)
    {
      assert listed[n] in listed;
      FileOfEntry(entries, listed[n]);
    }
    forall name
      ensures Process(name) in FilesOf(entries)
    {
      match name
      case Cmdline => assert listed[0].path == Process(Cmdline);
      case Exe => assert listed[1].path == Process(Exe);
      case Maps => assert listed[2].path == Process(Maps);
      case Stat => assert listed[3].path == Process(Stat);
      case Status => assert listed[4].path == Process(Status);
      case Fds => assert listed[5].path == Process(Fds);
    }
  }

  /** The contents of the files, as the checks look them up. */
  ghost predicate Stored(files: map<Path, Content>, i: Input, p: Picked, code: seq<byte>, g: RegistrySnapshot, s: Selection) {
    var o := p.seen;
    && Holds(files, PacketBin, Raw(o.head.block.bytes)) && Holds(files, PacketJson, Json(OfPacket(PacketOf(o))))
    && (o.next.Some? ==>
          && Holds(files, NextBin, Raw(o.next.value.block.bytes))
          && Holds(files, NextJson, Json(OfPacket(NextDocument(o).value))))
    && Holds(files, DescriptorBin, Raw(o.resources.code.block.bytes))
    && Holds(files, DescriptorJson, Json(OfDescriptor(o.resources.code.descriptor)))
    && (o.resources.kernarg.Some? ==> Holds(files, KernargBin, Raw(o.resources.kernarg.value.bytes)))
    && (o.resources.signal.Some? ==> Holds(files, SignalBin, Raw(o.resources.signal.value.bytes)))
    && Holds(files, MqdBin, Raw(o.mqd.block.bytes)) && Holds(files, CodeBin, Raw(code))
    && Holds(files, RegistryJson, Json(OfRegistry(g))) && Holds(files, QueueJson, Json(OfSelection(s)))
    && Holds(files, LogFile("worker"), Raw(i.worker)) && Holds(files, TraceLog, Raw(i.trace))
    && forall name :: Process(name) in files
  }

  /** The other files, and the ones that are not there. */
  ghost predicate RestStored(files: map<Path, Content>, i: Input, o: Observation) {
    && (forall n :: 0 <= n < |i.logs| ==> Holds(files, LogFile(i.logs[n].role), Raw(i.logs[n].payload)))
    && (o.next.None? ==> NextBin !in files) && (o.resources.kernarg.None? ==> KernargBin !in files)
    && (o.resources.signal.None? ==> SignalBin !in files)
    && ShowsProcess(files, i.snapshots)
  }

  lemma RestIsStored(entries: seq<Entry>, i: Input, o: Observation)
    requires Distinct(entries) && RestWritten(entries, i, o)
    requires forall e :: e in ProcessEntries(i.snapshots) ==> e in entries
    ensures RestStored(FilesOf(entries), i, o)
  {
    forall n | 0 <= n < |i.logs|
      ensures Holds(FilesOf(entries), LogFile(i.logs[n].role), Raw(i.logs[n].payload))
    {
      assert LogEntries(i.logs)[n] in LogEntries(i.logs);
      FileOfEntry(entries, LogEntries(i.logs)[n]);
    }
    ProcessIsStored(entries, i.snapshots);
  }

  lemma ProcessIsStored(entries: seq<Entry>, s: Snapshots)
    requires Distinct(entries) && forall e :: e in ProcessEntries(s) ==> e in entries
    ensures ShowsProcess(FilesOf(entries), s)
  {
    var listed := ProcessEntries(s);
    forall n | 0 <= n < 6
      ensures Holds(FilesOf(entries), listed[n].path, listed[n].content)
    {
      assert listed[n] in listed;
      FileOfEntry(entries, listed[n]);
    }
    assert Holds(FilesOf(entries), listed[0].path, listed[0].content);
    assert Holds(FilesOf(entries), listed[1].path, listed[1].content);
    assert Holds(FilesOf(entries), listed[2].path, listed[2].content);
    assert Holds(FilesOf(entries), listed[3].path, listed[3].content);
    assert Holds(FilesOf(entries), listed[4].path, listed[4].content);
    assert Holds(FilesOf(entries), listed[5].path, listed[5].content);
  }

  predicate ShowsProcess(files: map<Path, Content>, s: Snapshots) {
    && Holds(files, Process(Cmdline), Raw(s.cmdline)) && Holds(files, Process(Exe), Raw(s.exe))
    && Holds(files, Process(Maps), Raw(s.maps)) && Holds(files, Process(Stat), Raw(s.stat))
    && Holds(files, Process(Status), Raw(s.status)) && Holds(files, Process(Fds), Json(OfProcess(s.fds)))
  }

  predicate Holds(files: map<Path, Content>, path: Path, content: Content) {
    path in files && files[path] == content
  }

  lemma WrittenIsStored(entries: seq<Entry>, i: Input, p: Picked, code: seq<byte>, g: RegistrySnapshot, s: Selection)
    requires Distinct(entries) && Written(entries, i, p, code, g, s)
    ensures Stored(FilesOf(entries), i, p, code, g, s)
  {
    ProcessIsWritten(i.snapshots, entries);
    forall e | e in entries
      ensures Holds(FilesOf(entries), e.path, e.content)
    {
      FileOfEntry(entries, e);
    }
    assert forall path, content :: Entry(path, content) in entries ==> Holds(FilesOf(entries), path, content);
  }

  lemma HeadFilesAreSound(files: map<Path, Content>, o: Observation, s: Selection, render: Render)
    requires IsRender(render) && s.failingVa == o.head.va
    requires DecodePacket(o.head.block.bytes, true) == Success(o.head.packet)
    requires Holds(files, PacketBin, Raw(o.head.block.bytes)) && Holds(files, PacketJson, Json(OfPacket(PacketOf(o))))
    ensures HeadFiles(files, PacketOf(o), s, render)
  {
  }

  lemma NextFilesAreSound(files: map<Path, Content>, p: Picked, registry: Registry, render: Render)
    requires IsRender(render) && SoundPick(p, registry) && p.seen.next.Some?
    requires DecodePacket(p.seen.next.value.block.bytes, false) == Success(p.seen.next.value.packet)
    requires Holds(files, NextBin, Raw(p.seen.next.value.block.bytes))
    requires Holds(files, NextJson, Json(OfPacket(NextDocument(p.seen).value)))
    ensures NextFiles(files, NextDocument(p.seen), PickedSelection(p), render)
  {
    assert p.seen.next.value.va == SlotVa(p.queue.ringVa, p.queue.ringBytes, p.frontiers.completion + 1);
  }

  lemma DescriptorFilesAreSound(files: map<Path, Content>, code: Code, va: nat, render: Render)
    requires IsRender(render) && DecodeDescriptor(code.block.bytes, va) == Success(code.descriptor)
    requires Holds(files, DescriptorBin, Raw(code.block.bytes))
    requires Holds(files, DescriptorJson, Json(OfDescriptor(code.descriptor)))
    ensures DescriptorFiles(files, code.descriptor, va, render)
  {
    DescriptorSound(code.block.bytes, va);
  }

  lemma ResourceFilesAreSound(files: map<Path, Content>, r: Resources, d: Dispatch, render: Render)
    requires IsRender(render)
    requires Sized(r.kernarg, KernargCapture(r.code.descriptor, d.kernargAddress))
    requires Sized(r.signal, if d.completionSignal != 0 then SIGNAL_SIZE else 0)
    requires r.kernarg.Some? ==> Holds(files, KernargBin, Raw(r.kernarg.value.bytes))
    requires r.signal.Some? ==> Holds(files, SignalBin, Raw(r.signal.value.bytes))
    ensures ResourceFiles(files, d, r.code.descriptor, render)
  {
  }

  lemma QueueFilesAreSound(files: map<Path, Content>, p: Picked, render: Render)
    requires IsRender(render) && p.frontiers.completion <= p.frontiers.published
    requires |p.seen.mqd.block.bytes| == MQD_SIZE && MqdAgrees(p.seen.mqd.block.bytes, p.queue, p.frontiers)
    requires Holds(files, QueueJson, Json(OfSelection(PickedSelection(p))))
    requires Holds(files, MqdBin, Raw(p.seen.mqd.block.bytes))
    ensures QueueFiles(files, PickedSelection(p), render)
  {
  }

  lemma FilesAreSound(c: Capsule, i: Input, p: Picked, code: seq<byte>, g: RegistrySnapshot, render: Render)
    requires IsRender(render) && SoundPick(p, i.registry) && Interpreted(p.seen)
    requires Stored(c.files, i, p, code, g, PickedSelection(p))
    requires c.manifest.selection == PickedSelection(p) && c.manifest.packet == PacketOf(p.seen)
    requires c.manifest.next == NextDocument(p.seen) && c.manifest.descriptor == p.seen.resources.code.descriptor
    ensures FilesSound(c, render)
  {
    var o, s := p.seen, PickedSelection(p);
    HeadFilesAreSound(c.files, o, s, render);
    if o.next.Some? {
      NextFilesAreSound(c.files, p, i.registry, render);
    }
    DescriptorFilesAreSound(c.files, o.resources.code, o.head.packet.dispatch.value.kernelObject, render);
    ResourceFilesAreSound(c.files, o.resources, o.head.packet.dispatch.value, render);
    QueueFilesAreSound(c.files, p, render);
  }

  // ----- capture -----

  /** Whether `capture` commits, told from what it reads. */
  ghost predicate Capturable(i: Input, parts: Parts, f: Frontiers, contents: Contents, after: Result<Frontiers, string>) {
    && Observe(parts).Success?
    && Committable(i, Observe(parts).value, f, contents, after)
  }

  ghost predicate Committable(i: Input, o: Observation, f: Frontiers, contents: Contents, after: Result<Frontiers, string>) {
    && MainLogsFit(i)
    && Affordable(i, o, contents)
    && LogsFit(i.logs, |i.worker| + |i.trace|, i.limits)
    && after == Success(f)
  }

  predicate MainLogsFit(i: Input) {
    && |i.worker| <= i.limits.log && |i.trace| <= i.limits.log
    && |i.worker| + |i.trace| <= i.limits.totalLog
  }

  /** The referenced allocations are within budget and can be hashed. */
  ghost predicate Affordable(i: Input, o: Observation, contents: Contents) {
    var roles := RolesOf(o, i.registry.allocations);
    && Weight(roles.Keys, i.registry.allocations) <= i.limits.hash
    && o.resources.code.block.owner.bytes <= i.limits.code
    && Readable(roles.Keys, i.registry.allocations, contents)
  }

  /** `main` refuses any budget that is not positive. */
  predicate Budgets(l: Limits) {
    l.hash > 0 && l.code > 0 && l.kernarg > 0 && l.log > 0 && l.totalLog > 0
  }

  /** What the caller of the document-building part knows: the queue was selected from this registry. */
  ghost predicate Selected(i: Input, q: Queue, f: Frontiers) {
    && Numbered(i.registry.allocations) && Indexed(i.registry)
    && q in i.registry.queues && q.active
    && InWindow(f, q.ringBytes) && f.completion < f.published
    && Budgets(i.limits) && |i.worker| > 0
  }

  /** Contents come whole. */
  ghost predicate WholeContents(contents: Contents) {
    forall a {:trigger contents(a)} :: contents(a).Some? ==> |contents(a).value| == a.bytes
  }

  /** The capsule is cross-linked, and holds the code as it was when it was copied. */
  ghost predicate Committed(c: Capsule, g: RegistrySnapshot, code: nat, o: Observation, contents: Contents, render: Render) {
    && CrossLinked(c, g, code, render)
    && contents(o.resources.code.block.owner).Some?
    && c.files[CodeBin] == Raw(contents(o.resources.code.block.owner).value)
    && c.files[DescriptorBin] == Raw(o.resources.code.block.bytes)
    && c.manifest.descriptor == o.resources.code.descriptor
    && c.manifest.packet == PacketOf(o)
    && g.referenced[code].identity.va == o.resources.code.block.owner.va
  }

  /** The checks on the registry file, given the files. */
  lemma SnapshotIsSound(c: Capsule, i: Input, p: Picked, roles: Roles, records: seq<Referenced>,
                        pointers: seq<Pointer>, contents: Contents, copy: seq<byte>, render: Render) returns (code: nat)
    requires IsRender(render) && SoundPick(p, i.registry) && Selected(i, p.queue, p.frontiers)
    requires SoundRoles(roles, i.registry.allocations, p.seen)
    requires Recorded(records, roles.Keys, roles, i.registry.allocations, contents)
    requires contents(p.seen.resources.code.block.owner) == Some(copy)
    requires |copy| == p.seen.resources.code.block.owner.bytes <= i.limits.code
    requires Weight(roles.Keys, i.registry.allocations) <= i.limits.hash
    requires Holds(c.files, CodeBin, Raw(copy))
    requires Holds(c.files, RegistryJson, Json(OfRegistry(SnapshotOf(i, records, pointers))))
    requires c.manifest == ManifestOf(i, p, PickedSelection(p), |records|, Weight(roles.Keys, i.registry.allocations),
                                      c.manifest.logBytes, c.manifest.artifacts)
    ensures SnapshotSound(c, SnapshotOf(i, records, pointers), code, render)
    ensures records[code].identity.va == p.seen.resources.code.block.owner.va
  {
    RegistryIsSound(i, p, roles, records, pointers, contents, c.manifest);
    code := CodeIsSound(i, p, roles, records, contents, copy);
    QueueIsSound(i, p);
  }

  /** The checks on the manifest and the object files. */
  ghost predicate ObjectsLinked(c: Capsule, render: Render) {
    var m := c.manifest;
    && SelectionSound(m.selection)
    && PacketSound(m.packet, m.selection, m.descriptor)
    && NextSound(m.next, m.selection)
    && FilesSound(c, render)
  }

  lemma ObjectsAreLinked(c: Capsule, i: Input, p: Picked, code: seq<byte>, g: RegistrySnapshot, render: Render)
    requires IsRender(render) && SoundPick(p, i.registry) && Interpreted(p.seen)
    requires Stored(c.files, i, p, code, g, PickedSelection(p))
    requires c.manifest.selection == PickedSelection(p) && c.manifest.packet == PacketOf(p.seen)
    requires c.manifest.next == NextDocument(p.seen) && c.manifest.descriptor == p.seen.resources.code.descriptor
    ensures ObjectsLinked(c, render)
  {
    FilesAreSound(c, i, p, code, g, render);
    SelectionIsSound(p, i.registry);
    PacketIsSound(p, i.registry);
  }

  lemma FrontHasNoLogs(p: Picked, code: seq<byte>, g: RegistrySnapshot, s: Selection, snapshots: Snapshots)
    ensures var front := FrontEntries(p, code, g, s, snapshots);
            forall n :: 0 <= n < |front| ==> !IsLog(front[n].path)
  {
  }

  /** The file table and the log sizes. */
  lemma StagedIsSound(i: Input, p: Picked, code: seq<byte>, g: RegistrySnapshot, s: Selection, entries: seq<Entry>,
                      render: Render)
    requires IsRender(render) && Distinct(entries)
    requires entries == FrontEntries(p, code, g, s, i.snapshots) + BackEntries(i)
    requires |i.worker| <= i.limits.log && |i.trace| <= i.limits.log
    requires LogsFit(i.logs, |i.worker| + |i.trace|, i.limits)
    ensures Stored(FilesOf(entries), i, p, code, g, s) && RestStored(FilesOf(entries), i, p.seen)
    ensures TableSound(ArtifactsOf(entries, render), FilesOf(entries), render)
    ensures LogsSound(ArtifactsOf(entries, render), i.limits, |i.worker| + |i.trace| + LogTotal(i.logs))
  {
    AllAreWritten(i, p, code, g, s);
    WrittenIsStored(entries, i, p, code, g, s);
    RestIsWritten(i, p, code, g, s);
    RestIsStored(entries, i, p.seen);
    FrontHasNoLogs(p, code, g, s, i.snapshots);
    LogsAreSound(i, FrontEntries(p, code, g, s, i.snapshots), render);
    TableIsSound(entries, render);
  }

  /** What is gathered about the referenced allocations. */
  datatype Gathering = Gathering(roles: Roles, pointers: seq<Pointer>, records: seq<Referenced>, copy: seq<byte>)

  ghost predicate Gathered(i: Input, p: Picked, w: Gathering, contents: Contents) {
    var owner := p.seen.resources.code.block.owner;
    && SoundRoles(w.roles, i.registry.allocations, p.seen)
    && Recorded(w.records, w.roles.Keys, w.roles, i.registry.allocations, contents)
    && contents(owner) == Some(w.copy) && |w.copy| == owner.bytes <= i.limits.code
    && Weight(w.roles.Keys, i.registry.allocations) <= i.limits.hash
    && w.roles == RolesOf(p.seen, i.registry.allocations)
    && w.pointers == KernargPointers(p.seen, i.registry.allocations)
  }

  /** The pointers among the kernarg words. */
  function KernargPointers(o: Observation, allocations: seq<Allocation>): seq<Pointer> {
    var payload := PayloadOf(o.resources.kernarg);
    PointersIn(allocations, payload, |payload| / 8)
  }

  /** What a committed capsule holds: everything that was observed and gathered, and nothing of what was not there. */
  ghost predicate Shown(c: Capsule, i: Input, p: Picked, w: Gathering, contents: Contents) {
    && |p.seen.mqd.block.bytes| == MQD_SIZE && p.frontiers.completion <= p.frontiers.published
    && Gathered(i, p, w, contents)
    && Stored(c.files, i, p, w.copy, GatheredSnapshot(i, w), PickedSelection(p)) && RestStored(c.files, i, p.seen)
    && c.manifest == ManifestOf(i, p, PickedSelection(p), |w.records|, Weight(w.roles.Keys, i.registry.allocations),
                                c.manifest.logBytes, c.manifest.artifacts)
  }

  function GatheredSnapshot(i: Input, w: Gathering): RegistrySnapshot {
    SnapshotOf(i, w.records, w.pointers)
  }

  function CapsuleOf(i: Input, p: Picked, w: Gathering, total: nat, t: Staged): Capsule
    requires |p.seen.mqd.block.bytes| == MQD_SIZE && p.frontiers.completion <= p.frontiers.published
  {
    Capsule(ManifestOf(i, p, PickedSelection(p), |w.records|, total, t.captured, t.artifacts), t.files)
  }

  lemma CommittedIsSound(i: Input, p: Picked, w: Gathering, contents: Contents, total: nat, t: Staged, render: Render)
    requires IsRender(render) && SoundPick(p, i.registry) && Interpreted(p.seen) && Selected(i, p.queue, p.frontiers)
    requires Gathered(i, p, w, contents) && total == Weight(w.roles.Keys, i.registry.allocations)
    requires StagedFor(i, p, w, t, render) && LogsFit(i.logs, |i.worker| + |i.trace|, i.limits)
    ensures exists g, code :: Committed(CapsuleOf(i, p, w, total, t), g, code, p.seen, contents, render)
  {
    var g := GatheredSnapshot(i, w);
    var c := CapsuleOf(i, p, w, total, t);
    var code := SnapshotIsSound(c, i, p, w.roles, w.records, w.pointers, contents, w.copy, render);
    ObjectsAreLinked(c, i, p, w.copy, g, render);
    assert Committed(c, g, code, p.seen, contents, render);
  }

  /** The documents and the process files, after the objects. */
  method StageDocuments(dir: CapsuleDirectory, p: Picked, code: seq<byte>, g: RegistrySnapshot, s: Selection,
                        snapshots: Snapshots)
    requires dir.Valid()
    requires dir.entries == PacketEntries(p.seen) + ResourceEntries(p.seen.resources, p.seen.mqd.block.bytes)
    modifies dir
    ensures dir.Valid() && dir.entries == FrontEntries(p, code, g, s, snapshots)
  {
    dir.Add(CodeBin, Raw(code));
    dir.Add(RegistryJson, Json(OfRegistry(g)));
    dir.Add(QueueJson, Json(OfSelection(s)));
    AddProcess(dir, snapshots);
  }

  /** The logs, after everything else. */
  method StageLogs(dir: CapsuleDirectory, i: Input) returns (captured: Option<nat>)
    requires dir.Valid() && |i.worker| + |i.trace| <= i.limits.totalLog
    requires forall n :: 0 <= n < |dir.entries| ==> !IsLog(dir.entries[n].path)
    modifies dir
    ensures captured.Some? <==> LogsFit(i.logs, |i.worker| + |i.trace|, i.limits)
    ensures captured.Some? ==>
              && dir.Valid() && dir.entries == old(dir.entries) + BackEntries(i)
              && captured.value == |i.worker| + |i.trace| + LogTotal(i.logs)
  {
    dir.Add(LogFile("worker"), Raw(i.worker));
    dir.Add(TraceLog, Raw(i.trace));
    captured := AddLogs(dir, i.logs, |i.worker| + |i.trace|, i.limits);
  }

  lemma CodeIsReferenced(roles: Roles, registry: Registry, o: Observation)
    requires Numbered(registry.allocations) && SoundRoles(roles, registry.allocations, o)
    requires o.resources.code.block.owner in registry.allocations
    ensures KeyOf(o.resources.code.block.owner) in roles
    ensures IsKey(registry.allocations, KeyOf(o.resources.code.block.owner))
    ensures At(registry.allocations, KeyOf(o.resources.code.block.owner)) == o.resources.code.block.owner
  {
    KeyIsIndex(registry.allocations, o.resources.code.block.owner);
  }

  /** The roles of the referenced allocations, the kernarg pointers, and the bytes to hash. */
  method Refer(i: Input, p: Picked) returns (roles: Roles, pointers: seq<Pointer>, total: nat)
    requires SoundPick(p, i.registry) && Numbered(i.registry.allocations)
    ensures roles == RolesOf(p.seen, i.registry.allocations)
    ensures SoundRoles(roles, i.registry.allocations, p.seen)
    ensures total == Weight(roles.Keys, i.registry.allocations)
    ensures pointers == KernargPointers(p.seen, i.registry.allocations)
  {
    RolesAreSound(p.seen, i.registry, p.queue, p.frontiers);
    roles, pointers := ScanPointers(BaseRoles(p.seen), i.registry.allocations, PayloadOf(p.seen.resources.kernarg));
    roles := WithOptional(WithOptional(roles, p.seen.mqd.scratch, Scratch), p.seen.mqd.inactive, InactiveSignal);
    assert roles == RolesOf(p.seen, i.registry.allocations);
    total := HashBytes(roles.Keys, i.registry.allocations);
  }

  /** The copy of the resident code, and the records of everything referenced. */
  method Gather(i: Input, p: Picked, contents: Contents) returns (r: Option<Gathering>)
    requires SoundPick(p, i.registry) && Numbered(i.registry.allocations) && WholeContents(contents)
    ensures r.Some? <==> Affordable(i, p.seen, contents)
    ensures r.Some? ==> Gathered(i, p, r.value, contents)
  {
    var roles, pointers, total := Refer(i, p);
    var owner := p.seen.resources.code.block.owner;
    CodeIsReferenced(roles, i.registry, p.seen);
    if total > i.limits.hash || owner.bytes > i.limits.code {
      return None;
    }
    var copy := contents(owner);
    if copy.None? {
      return None;
    }
    var records := RecordAll(roles, i.registry.allocations, contents);
    if records.None? {
      return None;
    }
    r := Some(Gathering(roles, pointers, records.value, copy.value));
  }

  /** The staged files and their table. */
  datatype Staged = Staged(files: map<Path, Content>, artifacts: seq<Artifact>, captured: nat)

  ghost predicate StagedFor(i: Input, p: Picked, w: Gathering, t: Staged, render: Render)
    requires |p.seen.mqd.block.bytes| == MQD_SIZE && p.frontiers.completion <= p.frontiers.published
  {
    && Stored(t.files, i, p, w.copy, GatheredSnapshot(i, w), PickedSelection(p)) && RestStored(t.files, i, p.seen)
    && TableSound(t.artifacts, t.files, render)
    && LogsSound(t.artifacts, i.limits, t.captured)
    && t.captured == |i.worker| + |i.trace| + LogTotal(i.logs)
  }

  /** All files, in the order they are written. */
  method StageEntries(i: Input, p: Picked, code: seq<byte>, g: RegistrySnapshot, s: Selection)
    returns (entries: seq<Entry>, captured: Option<nat>)
    requires |i.worker| + |i.trace| <= i.limits.totalLog
    ensures captured.Some? <==> LogsFit(i.logs, |i.worker| + |i.trace|, i.limits)
    ensures captured.Some? ==>
              && Distinct(entries) && entries == FrontEntries(p, code, g, s, i.snapshots) + BackEntries(i)
              && captured.value == |i.worker| + |i.trace| + LogTotal(i.logs)
  {
    var dir := new CapsuleDirectory();
    AddPackets(dir, p.seen);
    AddResources(dir, p.seen.resources, p.seen.mqd.block.bytes);
    StageDocuments(dir, p, code, g, s, i.snapshots);
    FrontHasNoLogs(p, code, g, s, i.snapshots);
    captured := StageLogs(dir, i);
    entries := dir.entries;
  }

  method Stage(i: Input, p: Picked, w: Gathering, render: Render) returns (r: Option<Staged>)
    requires IsRender(render) && MainLogsFit(i)
    requires |p.seen.mqd.block.bytes| == MQD_SIZE && p.frontiers.completion <= p.frontiers.published
    ensures r.Some? <==> LogsFit(i.logs, |i.worker| + |i.trace|, i.limits)
    ensures r.Some? ==> StagedFor(i, p, w, r.value, render)
  {
    var g, s := GatheredSnapshot(i, w), PickedSelection(p);
    var entries, captured := StageEntries(i, p, w.copy, g, s);
    if captured.None? {
      return None;
    }
    StagedIsSound(i, p, w.copy, g, s, entries, render);
    r := Some(Staged(FilesOf(entries), ArtifactsOf(entries, render), captured.value));
  }

  method Commit(i: Input, p: Picked, w: Gathering, contents: Contents, t: Staged, render: Render) returns (c: Capsule)
    requires IsRender(render) && SoundPick(p, i.registry) && Interpreted(p.seen) && Selected(i, p.queue, p.frontiers)
    requires Gathered(i, p, w, contents)
    requires StagedFor(i, p, w, t, render) && LogsFit(i.logs, |i.worker| + |i.trace|, i.limits)
    ensures exists g, code :: Committed(c, g, code, p.seen, contents, render)
    ensures Shown(c, i, p, w, contents)
  {
    var total := HashBytes(w.roles.Keys, i.registry.allocations);
    CommittedIsSound(i, p, w, contents, total, t, render);
    c := CapsuleOf(i, p, w, total, t);
  }

  /** The files and the manifest, once everything has been gathered. */
  method Finish(i: Input, p: Picked, w: Gathering, contents: Contents, after: Result<Frontiers, string>, render: Render)
    returns (r: Result<Capsule, string>)
    requires IsRender(render) && MainLogsFit(i)
    requires SoundPick(p, i.registry) && Interpreted(p.seen) && Selected(i, p.queue, p.frontiers)
    requires Gathered(i, p, w, contents)
    ensures r.Success? <==> LogsFit(i.logs, |i.worker| + |i.trace|, i.limits) && after == Success(p.frontiers)
    ensures r.Success? ==> exists g, code :: Committed(r.value, g, code, p.seen, contents, render)
    ensures r.Success? ==> Shown(r.value, i, p, w, contents)
  {
    var staged := Stage(i, p, w, render);
    if staged.None? {
      return Failure("duplicate log role or logs exceed capture budget");
    }
    if after != Success(p.frontiers) {
      return Failure("queue frontiers changed during capture");
    }
    var c := Commit(i, p, w, contents, staged.value, render);
    r := Success(c);
  }

  lemma CommittableExactly(i: Input, p: Picked, contents: Contents, after: Result<Frontiers, string>, finished: bool)
    requires finished ==> Affordable(i, p.seen, contents)
    requires Affordable(i, p.seen, contents) ==>
               (finished <==> LogsFit(i.logs, |i.worker| + |i.trace|, i.limits) && after == Success(p.frontiers))
    ensures MainLogsFit(i) ==> (finished <==> Committable(i, p.seen, p.frontiers, contents, after))
  {
  }

  /** Everything after the head has been read. */
  method CaptureObserved(i: Input, p: Picked, contents: Contents, after: Result<Frontiers, string>, render: Render)
    returns (r: Result<Capsule, string>)
    requires IsRender(render) && WholeContents(contents)
    requires SoundPick(p, i.registry) && Interpreted(p.seen) && Selected(i, p.queue, p.frontiers)
    ensures r.Success? <==> Committable(i, p.seen, p.frontiers, contents, after)
    ensures r.Success? ==> exists g, code :: Committed(r.value, g, code, p.seen, contents, render)
    ensures r.Success? ==> exists w :: Shown(r.value, i, p, w, contents)
  {
    if !MainLogsFit(i) {
      return Failure("logs exceed capture budget");
    }
    var gathering := Gather(i, p, contents);
    if gathering.None? {
      CommittableExactly(i, p, contents, after, false);
      return Failure("allocations exceed the budgets or are unreadable");
    }
    r := Finish(i, p, gathering.value, contents, after, render);
    CommittableExactly(i, p, contents, after, r.Success?);
  }

  /** `capture` from the selected queue on. */
  method Capture(i: Input, q: Queue, f: Frontiers, parts: Parts, contents: Contents, after: Result<Frontiers, string>,
                 render: Render) returns (r: Result<Capsule, string>)
    requires IsRender(render) && WholeContents(contents) && Selected(i, q, f)
    requires Observe(parts).Success? ==>
               Located(Observe(parts).value, i.registry, q, f) && Interpreted(Observe(parts).value)
    ensures r.Success? <==> Capturable(i, parts, f, contents, after)
    ensures r.Success? ==> exists g, code :: Committed(r.value, g, code, Observe(parts).value, contents, render)
    ensures r.Success? ==> exists w :: Shown(r.value, i, Picked(q, f, Observe(parts).value), w, contents)
  {
    var observed := Observe(parts);
    if observed.Failure? {
      return Failure(observed.error);
    }
    r := CaptureObserved(i, Picked(q, f, observed.value), contents, after, render);
  }
}
