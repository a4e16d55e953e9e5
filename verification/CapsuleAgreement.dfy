/** `capture` from the selected queue on, and its agreement with `verify`. */
module CapsuleAgreement {
  import opened AqlPacket
  import opened AqlQueue
  import opened Bytes
  import opened CapsuleCapture
  import opened CapsuleDocument
  import opened CapsuleFiles
  import opened CapsuleRoles
  import opened KmtRegistry
  import opened Wrappers

  datatype Log = Log(role: string, payload: seq<byte>)

  /** The bytes of `maps`, `status`, `stat`, `cmdline` and `exe`, and the descriptor records. */
  datatype Snapshots = Snapshots(
    maps: seq<byte>,
    status: seq<byte>,
    stat: seq<byte>,
    cmdline: seq<byte>,
    exe: seq<byte>,
    fds: nat)

  datatype Input = Input(
    registry: Registry,
    worker: seq<byte>,
    trace: seq<byte>,
    logs: seq<Log>,
    snapshots: Snapshots,
    limits: Limits)

  // ----- The documents -----

  function SelectionOf(q: Queue, f: Frontiers, o: Observation): Selection
    requires |o.mqd.block.bytes| == MQD_SIZE && f.completion <= f.published
  {
    var mqd := o.mqd.block.bytes;
    Selection(
      q.id, q.ringVa, q.ringBytes, q.ringBytes / PACKET_BYTES, q.readPointer, q.writePointer,
      f.completion, f.published, f.published - f.completion, f.completion, o.head.va,
      if o.next.Some? then Some(f.completion + 1) else None,
      q.doorbellOffset, q.doorbellOffset + COMPLETION_FROM_DOORBELL, f, o.mqd.va,
      LittleNumber(mqd, 128, 8), LittleNumber(mqd, 56, 8), LittleNumber(mqd, 160, 8), LittleNumber(mqd, 168, 8), LittleNumber(mqd, 192, 8))
  }

  function NextDocument(o: Observation): Option<PacketDocument> {
    if o.next.Some? then Some(PacketDocument(o.next.value.packet, o.next.value.va)) else None
  }

  function IdentitiesOf(allocations: seq<Allocation>): (s: seq<Identity>)
    ensures |s| == |allocations| && forall i :: 0 <= i < |s| ==> s[i] == IdentityOf(allocations[i])
  {
    seq(|allocations|, i requires 0 <= i < |allocations| => IdentityOf(allocations[i]))
  }

  function PacketOf(o: Observation): PacketDocument {
    PacketDocument(o.head.packet, o.head.va)
  }

  // ----- The entries, in the order they are written -----

  function PacketEntries(o: Observation): (s: seq<Entry>)
    ensures forall i :: 0 <= i < |s| ==> s[i].path in {PacketBin, PacketJson, NextBin, NextJson}
  {
    [Entry(PacketBin, Raw(o.head.block.bytes)), Entry(PacketJson, Json(OfPacket(PacketOf(o))))]
    + if o.next.Some?
      then [Entry(NextBin, Raw(o.next.value.block.bytes)), Entry(NextJson, Json(OfPacket(NextDocument(o).value)))]
      else []
  }

  function ResourceEntries(r: Resources, mqd: seq<byte>): (s: seq<Entry>)
    ensures forall i :: 0 <= i < |s| ==> s[i].path in {DescriptorBin, DescriptorJson, KernargBin, SignalBin, MqdBin}
  {
    [Entry(DescriptorBin, Raw(r.code.block.bytes)), Entry(DescriptorJson, Json(OfDescriptor(r.code.descriptor)))]
    + (if r.kernarg.Some? then [Entry(KernargBin, Raw(r.kernarg.value.bytes))] else [])
    + (if r.signal.Some? then [Entry(SignalBin, Raw(r.signal.value.bytes))] else [])
    + [Entry(MqdBin, Raw(mqd))]
  }

  function ProcessEntries(s: Snapshots): seq<Entry> {
    [ Entry(Process(Cmdline), Raw(s.cmdline)), Entry(Process(Exe), Raw(s.exe)), Entry(Process(Maps), Raw(s.maps)),
      Entry(Process(Stat), Raw(s.stat)), Entry(Process(Status), Raw(s.status)),
      Entry(Process(Fds), Json(OfProcess(s.fds))) ]
  }

  function LogEntries(logs: seq<Log>): (s: seq<Entry>)
    ensures |s| == |logs| && forall i :: 0 <= i < |s| ==> s[i] == Entry(LogFile(logs[i].role), Raw(logs[i].payload))
  {
    seq(|logs|, i requires 0 <= i < |logs| => Entry(LogFile(logs[i].role), Raw(logs[i].payload)))
  }

  /** Reserved by the worker log and the dispatch trace. */
  predicate ReservedRole(role: string) {
    role == "worker" || role == "dispatch_trace"
  }

  // ----- Filling the directory -----

  ghost predicate OnlyIn(entries: seq<Entry>, paths: set<Path>) {
    forall i :: 0 <= i < |entries| ==> entries[i].path in paths
  }

  method AddPackets(dir: CapsuleDirectory, o: Observation)
    requires dir.Valid() && dir.entries == []
    modifies dir
    ensures dir.Valid() && dir.entries == PacketEntries(o)
  {
    dir.Add(PacketBin, Raw(o.head.block.bytes));
    dir.Add(PacketJson, Json(OfPacket(PacketOf(o))));
    if o.next.Some? {
      dir.Add(NextBin, Raw(o.next.value.block.bytes));
      dir.Add(NextJson, Json(OfPacket(NextDocument(o).value)));
    }
  }

  method AddResources(dir: CapsuleDirectory, r: Resources, mqd: seq<byte>)
    requires dir.Valid() && OnlyIn(dir.entries, {PacketBin, PacketJson, NextBin, NextJson})
    modifies dir
    ensures dir.Valid() && dir.entries == old(dir.entries) + ResourceEntries(r, mqd)
  {
    dir.Add(DescriptorBin, Raw(r.code.block.bytes));
    dir.Add(DescriptorJson, Json(OfDescriptor(r.code.descriptor)));
    if r.kernarg.Some? {
      dir.Add(KernargBin, Raw(r.kernarg.value.bytes));
    }
    if r.signal.Some? {
      dir.Add(SignalBin, Raw(r.signal.value.bytes));
    }
    dir.Add(MqdBin, Raw(mqd));
  }

  method AddProcess(dir: CapsuleDirectory, s: Snapshots)
    requires dir.Valid() && forall i :: 0 <= i < |dir.entries| ==> !dir.entries[i].path.Process?
    modifies dir
    ensures dir.Valid() && dir.entries == old(dir.entries) + ProcessEntries(s)
  {
    dir.Add(Process(Cmdline), Raw(s.cmdline));
    dir.Add(Process(Exe), Raw(s.exe));
    dir.Add(Process(Maps), Raw(s.maps));
    dir.Add(Process(Stat), Raw(s.stat));
    dir.Add(Process(Status), Raw(s.status));
    dir.Add(Process(Fds), Json(OfProcess(s.fds)));
  }

  predicate FitsAlone(log: Log, l: Limits) {
    !ReservedRole(log.role) && |log.payload| <= l.log
  }

  ghost predicate OwnRoles(logs: seq<Log>) {
    forall i, j :: 0 <= i < j < |logs| ==> logs[i].role != logs[j].role
  }

  lemma OneMoreRole(logs: seq<Log>, log: Log)
    requires OwnRoles(logs) && forall i {:trigger logs[i]} :: 0 <= i < |logs| ==> logs[i].role != log.role
    ensures OwnRoles(logs + [log])
  {
  }

  /** The logs have their own roles and fit the budgets, together with what was captured before. */
  ghost predicate LogsFit(logs: seq<Log>, before: nat, l: Limits) {
    && (forall i {:trigger logs[i]} :: 0 <= i < |logs| ==> FitsAlone(logs[i], l))
    && OwnRoles(logs)
    && before + LogTotal(logs) <= l.totalLog
  }

  function LogTotal(logs: seq<Log>): nat {
    if logs == [] then 0 else LogTotal(logs[..|logs| - 1]) + |logs[|logs| - 1].payload|
  }

  lemma {:induction false} LogTotalGrows(logs: seq<Log>, n: nat)
    requires n <= |logs|
    ensures LogTotal(logs[..n]) <= LogTotal(logs)
  {
    if n < |logs| {
      var init := logs[..|logs| - 1];
      LogTotalGrows(init, n);
      assert init[..n] == logs[..n];
    } else {
      assert logs[..n] == logs;
    }
  }

  lemma LogTotalStep(logs: seq<Log>, n: nat)
    requires n < |logs|
    ensures LogTotal(logs[..n + 1]) == LogTotal(logs[..n]) + |logs[n].payload|
    ensures LogTotal(logs[..n + 1]) <= LogTotal(logs)
  {
    assert logs[..n + 1][..n] == logs[..n];
    LogTotalGrows(logs, n + 1);
  }

  /** The seen roles are the reserved ones and those of the first n logs. */
  ghost predicate SeenAfter(seen: set<string>, logs: seq<Log>, n: nat)
    requires n <= |logs|
  {
    && (forall role :: role in seen <==> ReservedRole(role) || exists i :: 0 <= i < n && logs[i].role == role)
  }

  lemma SeenStep(seen: set<string>, logs: seq<Log>, n: nat)
    requires n < |logs| && SeenAfter(seen, logs, n)
    ensures SeenAfter(seen + {logs[n].role}, logs, n + 1)
  {
    assert logs[n].role in seen + {logs[n].role};
  }

  /** The loop over the additional logs. */
  method AddLogs(dir: CapsuleDirectory, logs: seq<Log>, before: nat, l: Limits) returns (captured: Option<nat>)
    requires dir.Valid() && before <= l.totalLog
    requires forall i :: 0 <= i < |dir.entries| && dir.entries[i].path.LogFile? ==> dir.entries[i].path.role == "worker"
    modifies dir
    ensures captured.Some? <==> LogsFit(logs, before, l)
    ensures captured.Some? ==>
              dir.Valid() && dir.entries == old(dir.entries) + LogEntries(logs) && captured.value == before + LogTotal(logs)
  {
    var total := before;
    var seen := {"worker", "dispatch_trace"};
    for n := 0 to |logs|
      invariant SeenAfter(seen, logs, n)
      invariant total == before + LogTotal(logs[..n]) <= l.totalLog
      invariant dir.Valid() && dir.entries == old(dir.entries) + LogEntries(logs[..n])
      invariant LogsFit(logs[..n], before, l)
    {
      var log := logs[n];
      LogTotalStep(logs, n);
      if log.role in seen || |log.payload| > l.log || total + |log.payload| > l.totalLog {
        RefusedLog(seen, logs, n, before, l);
        return None;
      }
      FittingLog(seen, logs, n, before, l);
      SeenStep(seen, logs, n);
      NewLogName(dir.entries, old(dir.entries), logs, n);
      seen := seen + {log.role};
      total := total + |log.payload|;
      dir.Add(LogFile(log.role), Raw(log.payload));
      assert LogEntries(logs[..n + 1]) == LogEntries(logs[..n]) + [Entry(LogFile(log.role), Raw(log.payload))];
    }
    assert logs[..|logs|] == logs;
    return Some(total);
  }

  lemma RefusedLog(seen: set<string>, logs: seq<Log>, n: nat, before: nat, l: Limits)
    requires n < |logs| && SeenAfter(seen, logs, n)
    requires || logs[n].role in seen || |logs[n].payload| > l.log
             || before + LogTotal(logs[..n]) + |logs[n].payload| > l.totalLog
    ensures !LogsFit(logs, before, l)
  {
    LogTotalStep(logs, n);
  }

  lemma FittingLog(seen: set<string>, logs: seq<Log>, n: nat, before: nat, l: Limits)
    requires n < |logs| && SeenAfter(seen, logs, n) && LogsFit(logs[..n], before, l)
    requires logs[n].role !in seen && |logs[n].payload| <= l.log
    requires before + LogTotal(logs[..n]) + |logs[n].payload| <= l.totalLog
    ensures LogsFit(logs[..n + 1], before, l)
  {
    LogTotalStep(logs, n);
    assert FitsAlone(logs[n], l);
    OneMoreRole(logs[..n], logs[n]);
    assert logs[..n + 1] == logs[..n] + [logs[n]];
  }

  lemma NewLogName(entries: seq<Entry>, start: seq<Entry>, logs: seq<Log>, n: nat)
    requires n < |logs| && entries == start + LogEntries(logs[..n])
    requires forall i :: 0 <= i < |start| && start[i].path.LogFile? ==> start[i].path.role == "worker"
    requires logs[n].role != "worker" && forall i :: 0 <= i < n ==> logs[i].role != logs[n].role
    ensures Absent(entries, LogFile(logs[n].role))
  {
  }
}
