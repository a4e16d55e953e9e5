/**
 Starting and stopping the one server of a state root, while the operating
 system may end processes and hand out their PIDs again between any two steps.
 */
module OwnedProcess {
  import opened Wrappers

  /** A process: its boot, its PID and its start time never belong to another one. */
  datatype Instance = Instance(boot: nat, pid: nat, startTicks: nat)

  /** The process that holds a PID; an exited one holds it until it is reaped. */
  datatype Slot = Slot(startTicks: nat, exited: bool)

  /** The process table, and every process that has been reaped so far. */
  datatype Os = Os(boot: nat, table: map<nat, Slot>, past: set<Instance>)

  function Holder(os: Os, pid: nat): (i: Instance)
    requires pid in os.table
  {
    Instance(os.boot, pid, os.table[pid].startTicks)
  }

  predicate Present(os: Os, i: Instance) {
    i.boot == os.boot && i.pid in os.table && os.table[i.pid].startTicks == i.startTicks
  }

  predicate Running(os: Os, i: Instance) {
    Present(os, i) && !os.table[i.pid].exited
  }

  /** The process exists or has existed. */
  predicate Born(os: Os, i: Instance) {
    Present(os, i) || i in os.past
  }

  predicate Ended(os: Os, i: Instance) {
    i in os.past || (Present(os, i) && os.table[i.pid].exited)
  }

  ghost predicate WellFormed(os: Os) {
    && (forall pid :: pid in os.table ==> Holder(os, pid) !in os.past)
    && (forall i :: i in os.past ==> i.boot <= os.boot)
  }

  /** Time passes: processes exit, are reaped and appear, PIDs are reused, the machine may reboot. */
  ghost predicate Later(a: Os, b: Os) {
    && WellFormed(b)
    && a.boot <= b.boot
    && a.past <= b.past
    && (forall pid :: pid in a.table ==>
          || Holder(a, pid) in b.past
          || (Present(b, Holder(a, pid)) && (a.table[pid].exited ==> b.table[pid].exited)))
  }

  lemma LaterReflexive(a: Os)
    requires WellFormed(a)
    ensures Later(a, a)
  {
  }

  lemma LaterTransitive(a: Os, b: Os, c: Os)
    requires Later(a, b) && Later(b, c)
    ensures Later(a, c)
  {
    forall pid | pid in a.table
      ensures Holder(a, pid) in c.past
           || (Present(c, Holder(a, pid)) && (a.table[pid].exited ==> c.table[pid].exited))
    {
      if Holder(a, pid) !in b.past {
        assert Holder(b, pid) == Holder(a, pid);
      }
    }
  }

  lemma BornAndEndedStay(a: Os, b: Os, i: Instance)
    requires Later(a, b)
    ensures Born(a, i) ==> Born(b, i)
    ensures Ended(a, i) ==> Ended(b, i)
    ensures Running(b, i) && Born(a, i) ==> Running(a, i)
  {
    if Present(a, i) {
      assert Holder(a, i.pid) == i;
    }
    if Present(b, i) {
      assert Holder(b, i.pid) == i;
    }
  }

  // ----- What the service sees -----

  datatype Executable = Executable(path: string, device: nat, inode: nat)

  datatype Record = Record(instance: Instance, executable: Executable)

  /** One instant: the process table and the configured server binary. */
  datatype World = World(os: Os, binary: Option<Executable>)

  ghost predicate InOrder(at: seq<World>) {
    && (forall i :: 0 <= i < |at| ==> WellFormed(at[i].os))
    && (forall i :: 0 < i < |at| ==> Later(at[i - 1].os, at[i].os))
  }

  lemma {:induction false} InstantsAreOrdered(at: seq<World>, i: nat, j: nat)
    requires InOrder(at) && i <= j < |at|
    ensures Later(at[i].os, at[j].os)
    decreases j
  {
    if i == j {
      LaterReflexive(at[i].os);
    } else {
      InstantsAreOrdered(at, i, j - 1);
      LaterTransitive(at[i].os, at[j - 1].os, at[j].os);
    }
  }

  datatype Match = Owned | NotOwned | Unverifiable

  /** `_record_match`: executable first, then PID, boot and start time. */
  function RecordMatch(w: World, r: Record): Match {
    if w.binary.None? || w.binary.value != r.executable then Unverifiable
    else if r.instance.pid !in w.os.table then NotOwned
    else if Holder(w.os, r.instance.pid) != r.instance then NotOwned
    else Owned
  }

  lemma MatchMeans(w: World, r: Record)
    requires WellFormed(w.os) && Born(w.os, r.instance)
    ensures RecordMatch(w, r) == NotOwned ==> r.instance in w.os.past
    ensures RecordMatch(w, r) == Owned ==> Present(w.os, r.instance)
  {
  }

  // ----- Stopping -----

  datatype Signal = SIGTERM | SIGKILL

  datatype Delivery = Delivery(signal: Signal, target: Instance)

  datatype PidfdSupport = Supported | Unavailable | Denied

  /** The arguments of `stop` and the faults of the system calls it makes. */
  datatype StopOptions = StopOptions(
    dryRun: bool,
    confirm: bool,
    killAfterTimeout: bool,
    pidfd: PidfdSupport,
    termDenied: bool,
    killDenied: bool)

  datatype StopResult =
    | AlreadyStopped
    | DryRun
    | StaleCleared
    | StoppedBeforeSigterm
    | StoppedAfterSigterm
    | StoppedBeforeSigkill
    | StoppedAfterSigkill
    | Refused

  datatype Stopped = Stopped(result: StopResult, removed: bool, signals: seq<Delivery>)

  datatype Sending = Sent | NotSent | SendFailed

  /** `_signal_if_owned`: a match at one instant, the signal through the pidfd at the next. */
  function SignalIfOwned(check: World, send: World, r: Record, bound: Instance, denied: bool): Sending {
    match RecordMatch(check, r)
    case Unverifiable => SendFailed
    case NotOwned => NotSent
    case Owned => if bound in send.os.past then NotSent else if denied then SendFailed else Sent
  }

  /**
   `stop_service` below its lock.  The instants are: match, pidfd_open, match,
   SIGTERM, poll, match, SIGKILL, poll.
   */
  function StopRecorded(r: Record, at: seq<World>, o: StopOptions): Stopped
    requires |at| == 8
  {
    match RecordMatch(at[0], r)
    case Unverifiable => Stopped(Refused, false, [])
    case NotOwned => Stopped(StaleCleared, true, [])
    case Owned =>
      if o.pidfd == Unavailable then Stopped(Refused, false, [])
      else if r.instance.pid !in at[1].os.table then Stopped(StoppedBeforeSigterm, true, [])
      else if o.pidfd == Denied then Stopped(Refused, false, [])
      else StopBound(r, Holder(at[1].os, r.instance.pid), at, o)
  }

  function StopBound(r: Record, bound: Instance, at: seq<World>, o: StopOptions): Stopped
    requires |at| == 8
  {
    match SignalIfOwned(at[2], at[3], r, bound, o.termDenied)
    case SendFailed => Stopped(Refused, false, [])
    case NotSent => Stopped(StaleCleared, true, [])
    case Sent =>
      var term := [Delivery(SIGTERM, bound)];
      if Ended(at[4].os, bound) then Stopped(StoppedAfterSigterm, true, term)
      else if !o.killAfterTimeout then Stopped(Refused, false, term)
      else
        match SignalIfOwned(at[5], at[6], r, bound, o.killDenied)
        case SendFailed => Stopped(Refused, false, term)
        case NotSent => Stopped(StoppedBeforeSigkill, true, term)
        case Sent =>
          var both := term + [Delivery(SIGKILL, bound)];
          if Ended(at[7].os, bound) then Stopped(StoppedAfterSigkill, true, both) else Stopped(Refused, false, both)
  }

  /**
   The pidfd is opened before ownership is checked again.  If the check then
   succeeds, the descriptor belongs to the recorded process: that process had
   the PID at the check, so it had it when the descriptor was opened.
   */
  lemma PidfdIsBoundToRecorded(atOpen: World, atCheck: World, r: Record)
    requires Later(atOpen.os, atCheck.os) && Born(atOpen.os, r.instance)
    requires r.instance.pid in atOpen.os.table
    requires RecordMatch(atCheck, r) == Owned
    ensures Holder(atOpen.os, r.instance.pid) == r.instance
  {
    assert Holder(atCheck.os, r.instance.pid) == r.instance;
  }

  /** From the open pidfd on, whatever process it is bound to. */
  lemma StopBoundHitsOnlyTheOwnedServer(r: Record, bound: Instance, at: seq<World>, o: StopOptions)
    requires |at| == 8
    requires WellFormed(at[2].os) && WellFormed(at[5].os) && Born(at[2].os, r.instance) && Born(at[5].os, r.instance)
    requires RecordMatch(at[2], r) == Owned ==> bound == r.instance
    requires forall i :: 0 <= i < 8 ==> (Ended(at[i].os, r.instance) ==> Ended(at[7].os, r.instance))
    ensures var s := StopBound(r, bound, at, o);
            && (forall d :: d in s.signals ==> d.target == r.instance)
            && (s.removed ==> Ended(at[7].os, r.instance))
            && (s.removed <==> s.result != Refused)
  {
    MatchMeans(at[2], r);
    MatchMeans(at[5], r);
    assert Ended(at[2].os, r.instance) ==> Ended(at[7].os, r.instance);
    assert Ended(at[3].os, r.instance) ==> Ended(at[7].os, r.instance);
    assert Ended(at[4].os, r.instance) ==> Ended(at[7].os, r.instance);
    assert Ended(at[5].os, r.instance) ==> Ended(at[7].os, r.instance);
    assert Ended(at[6].os, r.instance) ==> Ended(at[7].os, r.instance);
  }

  /**
   Under any exits and any PID reuse between the steps, every signal goes to
   the recorded process, and the record is removed only when that process has
   ended.
   */
  lemma StopHitsOnlyTheOwnedServer(r: Record, at: seq<World>, o: StopOptions)
    requires |at| == 8 && InOrder(at) && Born(at[0].os, r.instance)
    ensures var s := StopRecorded(r, at, o);
            && (forall d :: d in s.signals ==> d.target == r.instance)
            && (s.removed ==> Ended(at[7].os, r.instance))
            && (s.removed <==> s.result != Refused)
  {
    forall i | 0 <= i < 8
      ensures Born(at[i].os, r.instance)
      ensures Ended(at[i].os, r.instance) ==> Ended(at[7].os, r.instance)
    {
      InstantsAreOrdered(at, 0, i);
      BornAndEndedStay(at[0].os, at[i].os, r.instance);
      InstantsAreOrdered(at, i, 7);
      BornAndEndedStay(at[i].os, at[7].os, r.instance);
    }
    MatchMeans(at[0], r);
    if RecordMatch(at[0], r) == Owned && o.pidfd != Unavailable {
      if r.instance.pid in at[1].os.table {
        var bound := Holder(at[1].os, r.instance.pid);
        InstantsAreOrdered(at, 1, 2);
        if RecordMatch(at[2], r) == Owned {
          PidfdIsBoundToRecorded(at[1], at[2], r);
        }
        StopBoundHitsOnlyTheOwnedServer(r, bound, at, o);
      } else {
        assert Ended(at[1].os, r.instance);
      }
    } else {
      assert Ended(at[0].os, r.instance) ==> Ended(at[7].os, r.instance);
    }
  }

  /** The configured binary is the recorded one, and the recorded process is there, or is not. */
  predicate Here(w: World, r: Record) {
    w.binary == Some(r.executable) && Present(w.os, r.instance)
  }

  predicate NotHere(w: World, r: Record) {
    w.binary == Some(r.executable) && !Present(w.os, r.instance)
  }

  lemma MatchExactly(w: World, r: Record)
    ensures RecordMatch(w, r) == Owned <==> Here(w, r)
    ensures RecordMatch(w, r) == NotOwned <==> NotHere(w, r)
  {
  }

  /** The process may be signalled at this instant, and is. */
  predicate MaySignal(check: World, send: World, r: Record, denied: bool) {
    Here(check, r) && r.instance !in send.os.past && !denied
  }

  /** The process is found to be gone, when it is checked or when the signal is sent. */
  predicate IsGone(check: World, send: World, r: Record) {
    NotHere(check, r) || (Here(check, r) && r.instance in send.os.past)
  }

  /** The server is asked to end. */
  predicate Asks(r: Record, at: seq<World>, o: StopOptions)
    requires |at| == 8
  {
    Here(at[0], r) && o.pidfd == Supported && r.instance.pid in at[1].os.table && MaySignal(at[2], at[3], r, o.termDenied)
  }

  /** It has been asked, has not ended in time, and the option is set. */
  predicate Escalates(r: Record, at: seq<World>, o: StopOptions)
    requires |at| == 8
  {
    Asks(r, at, o) && !Ended(at[4].os, r.instance) && o.killAfterTimeout
  }

  /** It is killed. */
  predicate Kills(r: Record, at: seq<World>, o: StopOptions)
    requires |at| == 8
  {
    Escalates(r, at, o) && MaySignal(at[5], at[6], r, o.killDenied)
  }

  /**
   What `stop` does, for every behaviour of the system: SIGTERM exactly to a
   server that is there and checked again behind an open pidfd, SIGKILL after it
   exactly when the option is set and the server has outlived the wait, and each
   result that clears the record exactly in its own case.
   */
  lemma StopExactly(r: Record, at: seq<World>, o: StopOptions)
    requires |at| == 8 && InOrder(at) && Born(at[0].os, r.instance)
    ensures var s := StopRecorded(r, at, o);
            && s.signals == (if Kills(r, at, o) then [Delivery(SIGTERM, r.instance), Delivery(SIGKILL, r.instance)]
                             else if Asks(r, at, o) then [Delivery(SIGTERM, r.instance)] else [])
            && (s.result == StoppedAfterSigterm <==> Asks(r, at, o) && Ended(at[4].os, r.instance))
            && (s.result == StoppedAfterSigkill <==> Kills(r, at, o) && Ended(at[7].os, r.instance))
            && (s.result == StoppedBeforeSigkill <==> Escalates(r, at, o) && IsGone(at[5], at[6], r))
            && (s.result == StoppedBeforeSigterm <==>
                  Here(at[0], r) && o.pidfd != Unavailable && r.instance.pid !in at[1].os.table)
            && (s.result == StaleCleared <==>
                  || NotHere(at[0], r)
                  || (&& Here(at[0], r) && o.pidfd == Supported && r.instance.pid in at[1].os.table
                      && IsGone(at[2], at[3], r)))
            && s.result !in {AlreadyStopped, DryRun}
  {
    MatchExactly(at[0], r);
    if Here(at[0], r) && o.pidfd == Supported && r.instance.pid in at[1].os.table {
      var bound := Holder(at[1].os, r.instance.pid);
      MatchExactly(at[2], r);
      if Here(at[2], r) {
        InstantsAreOrdered(at, 0, 1);
        BornAndEndedStay(at[0].os, at[1].os, r.instance);
        InstantsAreOrdered(at, 1, 2);
        PidfdIsBoundToRecorded(at[1], at[2], r);
      }
      BoundExactly(r, bound, at, o);
    }
  }

  lemma BoundExactly(r: Record, bound: Instance, at: seq<World>, o: StopOptions)
    requires |at| == 8 && (Here(at[2], r) ==> bound == r.instance)
    ensures var s, asks := StopBound(r, bound, at, o), MaySignal(at[2], at[3], r, o.termDenied);
            var escalates := asks && !Ended(at[4].os, r.instance) && o.killAfterTimeout;
            var kills := escalates && MaySignal(at[5], at[6], r, o.killDenied);
            && s.signals == (if kills then [Delivery(SIGTERM, r.instance), Delivery(SIGKILL, r.instance)]
                             else if asks then [Delivery(SIGTERM, r.instance)] else [])
            && (s.result == StoppedAfterSigterm <==> asks && Ended(at[4].os, r.instance))
            && (s.result == StoppedAfterSigkill <==> kills && Ended(at[7].os, r.instance))
            && (s.result == StoppedBeforeSigkill <==> escalates && IsGone(at[5], at[6], r))
            && (s.result == StaleCleared <==> IsGone(at[2], at[3], r))
            && s.result !in {AlreadyStopped, DryRun, StoppedBeforeSigterm}
  {
    MatchExactly(at[2], r);
    MatchExactly(at[5], r);
  }

  // ----- Starting -----

  /** What can go wrong between the launch and the end of `start`. */
  datatype StartFault =
    | Healthy
    | PidfdFailed
    | IdentityFailed
    | BinaryChanged
    | WriteFailed(visible: bool)
    | WrapperKilled

  /** `abandoned`: the launched process may run on without a record. */
  datatype Started = Started(record: Option<Record>, launched: Option<Instance>, abandoned: bool)

  /**
   `start_service` below its lock, from the launch on.  The instants are:
   launch, poll, identity, write, and the end of the cleanup's wait.  While the
   wrapper lives the child is not reaped, so it keeps its PID.
   */
  function StartStopped(child: Instance, executable: Executable, at: seq<World>, fault: StartFault): Started
    requires |at| == 5
  {
    var record := Some(Record(child, executable));
    if fault == WrapperKilled then Started(None, Some(child), true)
    else if fault == PidfdFailed || Ended(at[1].os, child) || fault == IdentityFailed || fault == BinaryChanged
    then Started(None, Some(child), !Ended(at[4].os, child))
    else if fault.WriteFailed?
    then
      if Ended(at[4].os, child) then Started(None, Some(child), false)
      else Started(if fault.visible then record else None, Some(child), !fault.visible)
    else Started(record, Some(child), false)
  }

  /** A launch the kernel makes: a new process that the wrapper has not reaped. */
  ghost predicate Launch(child: Instance, before: Os, at: seq<World>)
  {
    && |at| == 5 && InOrder(at) && Later(before, at[0].os)
    && !Born(before, child)
    && forall i :: 0 <= i < 5 ==> Present(at[i].os, child) || (i == 4 && child in at[4].os.past)
  }

  // ----- Runs -----

  /** The state root, everything it ever launched, and every signal it ever sent. */
  datatype Service = Service(
    os: Os,
    record: Option<Record>,
    launched: set<Instance>,
    abandoned: set<Instance>,
    signals: seq<Delivery>)

  datatype Step =
    | Pass(os: Os)
    | Stop(at: seq<World>, options: StopOptions)
    | Start(child: Instance, executable: Executable, at: seq<World>, fault: StartFault)

  ghost predicate Possible(s: Service, step: Step) {
    match step
    case Pass(os) => Later(s.os, os)
    case Stop(at, _) => |at| == 8 && InOrder(at) && Later(s.os, at[0].os)
    case Start(child, _, at, _) => Launch(child, s.os, at)
  }

  ghost function Execute(s: Service, step: Step): Service
    requires Possible(s, step)
  {
    match step
    case Pass(os) => s.(os := os)
    case Stop(at, o) =>
      if s.record.None? || o.dryRun || !o.confirm then s.(os := at[7].os)
      else
        var stopped := StopRecorded(s.record.value, at, o);
        s.(os := at[7].os, signals := s.signals + stopped.signals,
           record := if stopped.removed then None else s.record)
    case Start(child, executable, at, fault) =>
      if s.record.Some? then s
      else
        var started := StartStopped(child, executable, at, fault);
        s.(os := at[4].os, record := started.record, launched := s.launched + {child},
           abandoned := if started.abandoned then s.abandoned + {child} else s.abandoned)
  }

  /** The server that runs is the recorded one, unless its launch was abandoned. */
  ghost predicate Safe(s: Service) {
    && WellFormed(s.os)
    && (forall i :: i in s.launched ==> Born(s.os, i))
    && (s.record.Some? ==> s.record.value.instance in s.launched)
    && (forall i :: i in s.launched && Running(s.os, i) ==>
          i in s.abandoned || (s.record.Some? && s.record.value.instance == i))
    && (forall d :: d in s.signals ==> d.target in s.launched)
  }

  lemma PassKeepsSafe(s: Service, os: Os)
    requires Safe(s) && Later(s.os, os)
    ensures Safe(s.(os := os))
  {
    forall i | i in s.launched
      ensures Born(os, i) && (Running(os, i) ==> Running(s.os, i))
    {
      BornAndEndedStay(s.os, os, i);
    }
  }

  lemma StopKeepsSafe(s: Service, at: seq<World>, o: StopOptions)
    requires Safe(s) && Possible(s, Stop(at, o))
    ensures Safe(Execute(s, Stop(at, o)))
  {
    InstantsAreOrdered(at, 0, 7);
    LaterTransitive(s.os, at[0].os, at[7].os);
    PassKeepsSafe(s, at[7].os);
    if s.record.Some? && !o.dryRun && o.confirm {
      BornAndEndedStay(s.os, at[0].os, s.record.value.instance);
      StopHitsOnlyTheOwnedServer(s.record.value, at, o);
    }
  }

  lemma StartKeepsSafe(s: Service, child: Instance, executable: Executable, at: seq<World>, fault: StartFault)
    requires Safe(s) && Possible(s, Start(child, executable, at, fault))
    ensures Safe(Execute(s, Start(child, executable, at, fault)))
  {
    InstantsAreOrdered(at, 0, 4);
    InstantsAreOrdered(at, 1, 4);
    LaterTransitive(s.os, at[0].os, at[4].os);
    PassKeepsSafe(s, at[4].os);
    BornAndEndedStay(at[1].os, at[4].os, child);
  }

  ghost predicate IsRun(states: seq<Service>, steps: seq<Step>) {
    && |states| == |steps| + 1
    && forall i :: 0 <= i < |steps| ==> Possible(states[i], steps[i]) && states[i + 1] == Execute(states[i], steps[i])
  }

  lemma {:induction false} RunsAreSafe(states: seq<Service>, steps: seq<Step>, i: nat)
    requires IsRun(states, steps) && Safe(states[0]) && i < |states|
    ensures Safe(states[i])
  {
    if i > 0 {
      RunsAreSafe(states, steps, i - 1);
      match steps[i - 1]
      case Pass(os) => PassKeepsSafe(states[i - 1], os);
      case Stop(at, o) => StopKeepsSafe(states[i - 1], at, o);
      case Start(child, executable, at, fault) => StartKeepsSafe(states[i - 1], child, executable, at, fault);
    }
  }

  /** The launch fails after the process exists, and before a record of it can be seen. */
  predicate FailsUnrecorded(fault: StartFault) {
    fault == PidfdFailed || fault == IdentityFailed || fault == BinaryChanged || fault == WriteFailed(false)
  }

  /**
   When a launch leaves a live process without a record: the wrapper is killed
   before the write, or it fails for one of four reasons and the process
   outlives the five seconds the cleanup waits for it.
   */
  predicate Abandons(child: Instance, at: seq<World>, fault: StartFault)
    requires |at| == 5
  {
    fault == WrapperKilled || (FailsUnrecorded(fault) && Running(at[4].os, child))
  }

  lemma AbandonedExactly(child: Instance, executable: Executable, before: Os, at: seq<World>, fault: StartFault)
    requires Launch(child, before, at)
    ensures var s := StartStopped(child, executable, at, fault);
            && (s.abandoned <==> Abandons(child, at, fault))
            && (fault == Healthy && Running(at[1].os, child) ==> s.record == Some(Record(child, executable)))
            && (s.record.Some? ==> s.record.value.instance == child)
            && (s.record.None? && Running(at[4].os, child) <==>
                  Running(at[4].os, child) && (fault == WrapperKilled || FailsUnrecorded(fault)))
  {
    InstantsAreOrdered(at, 1, 4);
    BornAndEndedStay(at[1].os, at[4].os, child);
  }

  /** Step n of a run launches this process and abandons it. */
  ghost predicate AbandonsAt(states: seq<Service>, steps: seq<Step>, n: nat, i: Instance)
    requires IsRun(states, steps) && n < |steps|
  {
    && states[n].record.None? && steps[n].Start? && steps[n].child == i
    && Possible(states[n], steps[n]) && Abandons(i, steps[n].at, steps[n].fault)
  }

  lemma StepAbandons(states: seq<Service>, steps: seq<Step>, n: nat, i: Instance)
    requires IsRun(states, steps) && n < |steps|
    ensures i in states[n + 1].abandoned <==> i in states[n].abandoned || AbandonsAt(states, steps, n, i)
  {
    assert Possible(states[n], steps[n]) && states[n + 1] == Execute(states[n], steps[n]);
    if steps[n].Start? && states[n].record.None? {
      AbandonedExactly(steps[n].child, steps[n].executable, states[n].os, steps[n].at, steps[n].fault);
    }
  }

  /** Over a run, the abandoned processes are those of the starts that meet the condition. */
  lemma {:induction false} AbandonedOverARun(states: seq<Service>, steps: seq<Step>, n: nat, i: Instance)
    requires IsRun(states, steps) && n < |states|
    ensures i in states[n].abandoned
       <==> i in states[0].abandoned || exists m :: 0 <= m < n && AbandonsAt(states, steps, m, i)
  {
    if n > 0 {
      AbandonedOverARun(states, steps, n - 1, i);
      StepAbandons(states, steps, n - 1, i);
    }
  }

  /** At most one launched server runs at any time, as long as no start has met the condition. */
  lemma AtMostOneServer(states: seq<Service>, steps: seq<Step>, n: nat, a: Instance, b: Instance)
    requires IsRun(states, steps) && Safe(states[0]) && n < |states|
    requires states[0].abandoned == {}
    requires forall m, i :: 0 <= m < n ==> !AbandonsAt(states, steps, m, i)
    requires a in states[n].launched && b in states[n].launched
    requires Running(states[n].os, a) && Running(states[n].os, b)
    ensures a == b && states[n].record.Some? && states[n].record.value.instance == a
  {
    RunsAreSafe(states, steps, n);
    AbandonedOverARun(states, steps, n, a);
    AbandonedOverARun(states, steps, n, b);
  }

  /** And then a second server can be started beside it: only the record is consulted. */
  lemma AbandonedServerIsNotSeen(s: Service, i: Instance, child: Instance, executable: Executable, at: seq<World>)
    requires Safe(s) && s.record.None? && i in s.abandoned && Possible(s, Start(child, executable, at, Healthy))
    requires Running(at[4].os, i) && Running(at[4].os, child) && Born(s.os, i)
    ensures var t := Execute(s, Start(child, executable, at, Healthy));
            t.record == Some(Record(child, executable)) && i != child && Running(t.os, i) && Running(t.os, child)
  {
    InstantsAreOrdered(at, 1, 4);
    BornAndEndedStay(at[1].os, at[4].os, child);
  }

  // ----- The commands as they change the state root -----

  class AgentEnvService {
    var record: Option<Record>
    var lastStop: Option<(Record, StopResult)>
    var signals: seq<Delivery>

    constructor ()
      ensures record.None? && lastStop.None? && signals == []
    {
      record := None;
      lastStop := None;
      signals := [];
    }

    /** `_remove_record`. */
    method RemoveRecord(result: StopResult)
      requires record.Some?
      modifies this`record, this`lastStop
      ensures record.None? && lastStop == Some((old(record).value, result))
    {
      lastStop := Some((record.value, result));
      record := None;
    }

    /** `_signal_if_owned`. */
    method Signal(check: World, send: World, bound: Instance, signal: Signal, denied: bool) returns (outcome: Sending)
      requires record.Some?
      modifies this`signals
      ensures outcome == SignalIfOwned(check, send, record.value, bound, denied)
      ensures signals == old(signals) + (if outcome == Sent then [Delivery(signal, bound)] else [])
    {
      match RecordMatch(check, record.value) {
        case Unverifiable => return SendFailed;
        case NotOwned => return NotSent;
        case Owned =>
          if bound in send.os.past {
            return NotSent;
          }
          if denied {
            return SendFailed;
          }
          signals := signals + [Delivery(signal, bound)];
          return Sent;
      }
    }

    /** `stop_service`. */
    method StopService(at: seq<World>, o: StopOptions) returns (result: StopResult)
      requires |at| == 8
      modifies this
      ensures old(record).None? ==> result == AlreadyStopped && record.None? && signals == old(signals)
      ensures old(record).Some? && (o.dryRun || !o.confirm) ==>
                && record == old(record) && signals == old(signals)
                && result == if o.dryRun && RecordMatch(at[0], old(record).value) != Unverifiable then DryRun else Refused
      ensures old(record).Some? && !o.dryRun && o.confirm ==>
                var stopped := StopRecorded(old(record).value, at, o);
                && result == stopped.result
                && record == (if stopped.removed then None else old(record))
                && signals == old(signals) + stopped.signals
                && lastStop == (if stopped.removed then Some((old(record).value, result)) else old(lastStop))
    {
      if record.None? {
        return AlreadyStopped;
      }
      var matched := RecordMatch(at[0], record.value);
      if matched == Unverifiable {
        return Refused;
      }
      if o.dryRun || !o.confirm {
        return if o.dryRun then DryRun else Refused;
      }
      if matched == NotOwned {
        RemoveRecord(StaleCleared);
        return StaleCleared;
      }
      if o.pidfd == Unavailable {
        return Refused;
      }
      if record.value.instance.pid !in at[1].os.table {
        RemoveRecord(StoppedBeforeSigterm);
        return StoppedBeforeSigterm;
      }
      if o.pidfd == Denied {
        return Refused;
      }
      var bound := Holder(at[1].os, record.value.instance.pid);
      var term := Signal(at[2], at[3], bound, SIGTERM, o.termDenied);
      if term == SendFailed {
        return Refused;
      }
      if term == NotSent {
        RemoveRecord(StaleCleared);
        return StaleCleared;
      }
      if Ended(at[4].os, bound) {
        RemoveRecord(StoppedAfterSigterm);
        return StoppedAfterSigterm;
      }
      if !o.killAfterTimeout {
        return Refused;
      }
      var kill := Signal(at[5], at[6], bound, SIGKILL, o.killDenied);
      if kill == SendFailed {
        return Refused;
      }
      if kill == NotSent {
        RemoveRecord(StoppedBeforeSigkill);
        return StoppedBeforeSigkill;
      }
      if !Ended(at[7].os, bound) {
        return Refused;
      }
      RemoveRecord(StoppedAfterSigkill);
      return StoppedAfterSigkill;
    }

    /** `start_service` from the launch on, for a launch that was not killed. */
    method StartService(child: Instance, executable: Executable, at: seq<World>, fault: StartFault)
      returns (started: bool)
      requires |at| == 5 && fault != WrapperKilled
      modifies this`record
      ensures old(record).Some? ==> !started && record == old(record)
      ensures old(record).None? ==> record == StartStopped(child, executable, at, fault).record
      ensures started <==> old(record).None? && fault == Healthy && !Ended(at[1].os, child)
      ensures started ==> record == Some(Record(child, executable))
    {
      if record.Some? {
        return false;
      }
      var failed := fault == PidfdFailed || Ended(at[1].os, child) || fault == IdentityFailed || fault == BinaryChanged;
      if !failed && (fault == Healthy || fault.visible) {
        record := Some(Record(child, executable));
      }
      if failed || fault.WriteFailed? {
        if Ended(at[4].os, child) {
          record := None;
        }
        return false;
      }
      return true;
    }
  }
}
