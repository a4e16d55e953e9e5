/**
 The last part of `finalize`: the journal is marked committed in txn/ and then
 moved to committed/.  A directory has a live view and a durable one; only an
 fsync of that directory makes the two agree, and a power loss keeps only the
 durable view.
 */
module Retirement {
  import opened Git
  import opened Transaction
  import opened Wrappers

  datatype Directory = Directory(live: map<nat, Journal>, durable: map<nat, Journal>)

  /** The control directory: txn/ exists from `begin` on, committed/ may not. */
  datatype Disk = Disk(hasCommitted: bool, committedIsDurable: bool, txn: Directory, committed: Directory)

  // ----- System calls -----

  /** `os.replace` of a written and fsynced temporary file onto a name in txn/. */
  function ReplaceActive(d: Disk, name: nat, j: Journal): Disk {
    d.(txn := d.txn.(live := d.txn.live[name := j]))
  }

  function SyncTxn(d: Disk): Disk {
    d.(txn := d.txn.(durable := d.txn.live))
  }

  function SyncCommitted(d: Disk): Disk {
    d.(committed := d.committed.(durable := d.committed.live))
  }

  /** `fsync` of the control directory itself. */
  function SyncControl(d: Disk): Disk {
    d.(committedIsDurable := d.hasCommitted)
  }

  /** `syncfs` of the filesystem that holds the control directory. */
  function SyncFs(d: Disk): Disk {
    SyncControl(SyncTxn(SyncCommitted(d)))
  }

  function MakeCommitted(d: Disk): Disk {
    d.(hasCommitted := true)
  }

  /** `os.replace` of the active journal into committed/. */
  function Move(d: Disk, name: nat): Disk
    requires name in d.txn.live
  {
    d.(committed := d.committed.(live := d.committed.live[name := d.txn.live[name]]),
       txn := d.txn.(live := d.txn.live - {name}))
  }

  function Unlink(d: Disk, name: nat): Disk {
    d.(txn := d.txn.(live := d.txn.live - {name}))
  }

  /** What is left after a power loss; entries of a directory that was itself not durable are gone. */
  function PowerLoss(d: Disk): Disk {
    var committed := if d.committedIsDurable then d.committed.durable else map[];
    Disk(d.committedIsDurable, d.committedIsDurable, Directory(d.txn.durable, d.txn.durable),
         Directory(committed, committed))
  }

  // ----- finalize, one system call at a time -----

  /** The directories that `syncfs` writes back, one after the other, in an order of its own. */
  datatype Part = TxnPart | CommittedPart | ControlPart

  function SyncPart(d: Disk, part: Part): Disk {
    match part
    case TxnPart => SyncTxn(d)
    case CommittedPart => SyncCommitted(d)
    case ControlPart => SyncControl(d)
  }

  /** The disk after some parts have been written back. */
  function Flushing(d: Disk, order: seq<Part>): Disk {
    if order == [] then d else SyncPart(Flushing(d, order[..|order| - 1]), order[|order| - 1])
  }

  /** The disk during and after `sync_repository_filesystems`. */
  function FlushTrace(d: Disk, order: seq<Part>): seq<Disk> {
    seq(|order|, n requires 0 <= n < |order| => Flushing(d, order[..n + 1])) + [SyncFs(d)]
  }

  /** The disk after each step that marks the journal committed; nothing when it already is. */
  function MarkTrace(d: Disk, name: nat, mark: Journal): seq<Disk>
    requires name in d.txn.live
  {
    if d.txn.live[name].phase == COMMITTED then []
    else
      var replaced := ReplaceActive(d, name, mark);
      [replaced, SyncTxn(replaced)]
  }

  /** The disk after each step of `retire_journal`. */
  function RetireTrace(d: Disk, name: nat): seq<Disk>
    requires name in d.txn.live
  {
    var made := MakeCommitted(d);
    if name in made.committed.live then
      if made.committed.live[name] != made.txn.live[name] then [made]
      else
        var synced := SyncCommitted(made);
        var unlinked := Unlink(synced, name);
        [made, synced, unlinked, SyncTxn(unlinked)]
    else
      var hardened := SyncControl(made);
      var moved := Move(hardened, name);
      var kept := SyncCommitted(moved);
      [made, hardened, moved, kept, SyncTxn(kept)]
  }

  function Last(d: Disk, states: seq<Disk>): Disk {
    if states == [] then d else states[|states| - 1]
  }

  /** Every disk state from the first system call that changes something on. */
  function MarkAndRetire(d: Disk, name: nat, mark: Journal): (states: seq<Disk>)
    requires name in d.txn.live
    ensures |states| > 0
  {
    var marked := MarkTrace(d, name, mark);
    [d] + marked + RetireTrace(Last(d, marked), name)
  }

  /** Every disk state of one finalize whose first checks have passed, the first one included. */
  function Trace(d: Disk, name: nat, mark: Journal, order: seq<Part>): (states: seq<Disk>)
    requires name in d.txn.live
    ensures |states| > 0
  {
    [d] + FlushTrace(d, order)[..|order|] + MarkAndRetire(SyncFs(d), name, mark)
  }

  // ----- What survives -----

  /** A power loss now would leave a journal under this name. */
  predicate HasDurableName(d: Disk, name: nat) {
    name in PowerLoss(d).txn.live || name in PowerLoss(d).committed.live
  }

  predicate IsRetired(d: Disk, name: nat) {
    && name !in d.txn.live && name !in d.txn.durable
    && d.hasCommitted && d.committedIsDurable
    && name in d.committed.live && name in d.committed.durable
    && d.committed.live[name] == d.committed.durable[name]
    && d.committed.live[name].phase == COMMITTED
  }

  /** The states that finalizing one journal, with any crashes, can leave. */
  ghost predicate Recoverable(d: Disk, name: nat) {
    && (d.committed.live != map[] || d.committed.durable != map[] ==> d.hasCommitted && d.committedIsDurable)
    && (d.committedIsDurable ==> d.hasCommitted)
    && HasDurableName(d, name)
    && (name in d.txn.live ==> name in d.txn.durable)
    && (name in d.committed.durable ==> name in d.committed.live && d.committed.live[name] == d.committed.durable[name])
    && (name in d.committed.live ==>
          && d.committed.live[name].phase == COMMITTED
          && (name in d.txn.live ==> d.txn.live[name] == d.committed.live[name])
          && (name in d.txn.durable ==> d.txn.durable[name] == d.committed.live[name]))
  }

  lemma MarkKeepsRecoverable(d: Disk, name: nat, mark: Journal, i: nat)
    requires Recoverable(d, name) && name in d.txn.live && mark.phase == COMMITTED
    requires i < |MarkTrace(d, name, mark)|
    ensures Recoverable(MarkTrace(d, name, mark)[i], name)
  {
  }

  lemma RetireKeepsRecoverable(d: Disk, name: nat, i: nat)
    requires Recoverable(d, name) && name in d.txn.live && d.txn.live[name].phase == COMMITTED
    requires d.txn.live[name] == d.txn.durable[name]
    requires i < |RetireTrace(d, name)|
    ensures Recoverable(RetireTrace(d, name)[i], name)
  {
    var s := RetireTrace(d, name)[i];
    assert MakeCommitted(d).committed == d.committed;
    if name !in d.committed.live {
      assert Recoverable(MakeCommitted(d), name);
      assert Recoverable(SyncControl(MakeCommitted(d)), name);
    }
  }

  /** When a journal is about to be retired, its active name and content are durable. */
  lemma Marked(d: Disk, name: nat, mark: Journal)
    requires Recoverable(d, name) && name in d.txn.live && mark.phase == COMMITTED
    requires d.txn.live[name] == d.txn.durable[name]
    ensures var marked := Last(d, MarkTrace(d, name, mark));
            && Recoverable(marked, name) && name in marked.txn.live
            && marked.txn.live[name].phase == COMMITTED && marked.txn.live[name] == marked.txn.durable[name]
  {
    var states := MarkTrace(d, name, mark);
    if states != [] {
      MarkKeepsRecoverable(d, name, mark, |states| - 1);
    }
  }

  lemma MarkAndRetireKeepsRecoverable(d: Disk, name: nat, mark: Journal, i: nat)
    requires Recoverable(d, name) && name in d.txn.live && d.txn.live[name] == d.txn.durable[name]
    requires mark.phase == COMMITTED && i < |MarkAndRetire(d, name, mark)|
    ensures Recoverable(MarkAndRetire(d, name, mark)[i], name)
  {
    var marked := MarkTrace(d, name, mark);
    if 0 < i <= |marked| {
      MarkKeepsRecoverable(d, name, mark, i - 1);
    } else if i > |marked| {
      Marked(d, name, mark);
      RetireKeepsRecoverable(Last(d, marked), name, i - 1 - |marked|);
    }
  }

  /** However far a flush has come, nothing live is touched and the journal stays recoverable. */
  lemma {:induction false} FlushingKeepsRecoverable(d: Disk, name: nat, order: seq<Part>)
    requires Recoverable(d, name) && name in d.txn.live
    ensures var f := Flushing(d, order);
            && Recoverable(f, name)
            && f.txn.live == d.txn.live && f.committed.live == d.committed.live && f.hasCommitted == d.hasCommitted
  {
    if order != [] {
      FlushingKeepsRecoverable(d, name, order[..|order| - 1]);
    }
  }

  lemma {:induction false} FlushingThenAll(d: Disk, order: seq<Part>)
    ensures SyncFs(Flushing(d, order)) == SyncFs(d)
  {
    if order != [] {
      FlushingThenAll(d, order[..|order| - 1]);
    }
  }

  lemma FlushedIsRecoverable(d: Disk, name: nat)
    requires Recoverable(d, name) && name in d.txn.live
    ensures Recoverable(SyncFs(d), name) && name in SyncFs(d).txn.live
    ensures SyncFs(d).txn.live[name] == SyncFs(d).txn.durable[name]
  {
  }

  /** Every crash point of a finalize leaves a durable name, and a state from which finalize can be run again. */
  lemma EveryCrashPoint(d: Disk, name: nat, mark: Journal, order: seq<Part>, i: nat)
    requires Recoverable(d, name) && name in d.txn.live
    requires mark.phase == COMMITTED && i < |Trace(d, name, mark, order)|
    ensures Recoverable(Trace(d, name, mark, order)[i], name)
    ensures HasDurableName(Trace(d, name, mark, order)[i], name)
  {
    if 0 < i <= |order| {
      FlushingKeepsRecoverable(d, name, order[..i]);
    } else if i > |order| {
      FlushedIsRecoverable(d, name);
      MarkAndRetireKeepsRecoverable(SyncFs(d), name, mark, i - 1 - |order|);
    }
  }

  lemma PowerLossKeepsRecoverable(d: Disk, name: nat)
    requires Recoverable(d, name)
    ensures Recoverable(PowerLoss(d), name)
    ensures IsRetired(d, name) ==> IsRetired(PowerLoss(d), name)
  {
  }

  /** A finalize that is not interrupted ends with the journal retired and no active name. */
  lemma CompletionRetires(d: Disk, name: nat, mark: Journal, order: seq<Part>)
    requires Recoverable(d, name) && name in d.txn.live && mark.phase == COMMITTED
    ensures IsRetired(Last(d, Trace(d, name, mark, order)), name)
  {
    var flushed := SyncFs(d);
    FlushedIsRecoverable(d, name);
    Marked(flushed, name, mark);
    var marked := Last(flushed, MarkTrace(flushed, name, mark));
    var retired := RetireTrace(marked, name);
    assert Last(d, Trace(d, name, mark, order)) == retired[|retired| - 1];
    assert name in marked.committed.live ==> |retired| == 4;
  }

  // ----- Any number of interrupted attempts -----

  /**
   How one attempt ends: after the last step, at a power loss after some step,
   or with the death of the process after some step, which leaves both views.
   */
  datatype Ending = Completed | PowerLost(at: nat) | Died(at: nat)

  datatype Attempt = Attempt(mark: Journal, order: seq<Part>, ending: Ending)

  /** The states an attempt can pass through; without an active name it fails before it writes. */
  function Passed(d: Disk, name: nat, a: Attempt): (states: seq<Disk>)
    ensures |states| > 0
  {
    if name in d.txn.live then Trace(d, name, a.mark, a.order) else [d]
  }

  /** The disk after one more finalize. */
  function After(d: Disk, name: nat, a: Attempt): Disk {
    var states := Passed(d, name, a);
    match a.ending
    case Completed => Last(d, states)
    case PowerLost(at) => PowerLoss(if at < |states| then states[at] else Last(d, states))
    case Died(at) => if at < |states| then states[at] else Last(d, states)
  }

  /** An attempt to finalize, or another command of the coordinator, which fsyncs txn/ for a journal of its own. */
  datatype Event = Finalizing(attempt: Attempt) | OtherCommand

  function AfterEvent(d: Disk, name: nat, e: Event): Disk {
    match e
    case Finalizing(attempt) => After(d, name, attempt)
    case OtherCommand => SyncTxn(d)
  }

  /** The disk before each event and after the last. */
  ghost predicate IsHistory(disks: seq<Disk>, name: nat, events: seq<Event>) {
    && |disks| == |events| + 1
    && forall i {:trigger Follows(disks, name, events, i)} :: 0 <= i < |events| ==> Follows(disks, name, events, i)
  }

  ghost predicate Follows(disks: seq<Disk>, name: nat, events: seq<Event>, i: nat)
    requires i < |events| && i + 1 < |disks|
  {
    && disks[i + 1] == AfterEvent(disks[i], name, events[i])
    && (events[i].Finalizing? ==> events[i].attempt.mark.phase == COMMITTED)
  }

  /** What `begin` .. `prepare-root` leave: a durable active journal and no retired one of its name. */
  ghost predicate ReadyToFinalize(d: Disk, name: nat) {
    && name in d.txn.live && name in d.txn.durable && d.txn.live[name] == d.txn.durable[name]
    && name !in d.committed.live && name !in d.committed.durable
    && (d.committed.live != map[] || d.committed.durable != map[] ==> d.hasCommitted && d.committedIsDurable)
    && (d.committedIsDurable ==> d.hasCommitted)
  }

  lemma AttemptKeepsRecoverable(d: Disk, name: nat, a: Attempt)
    requires Recoverable(d, name) && a.mark.phase == COMMITTED
    ensures Recoverable(After(d, name, a), name)
    ensures IsRetired(d, name) ==> IsRetired(After(d, name, a), name)
    ensures a.ending.Completed? && name in d.txn.live ==> IsRetired(After(d, name, a), name)
  {
    var states := Passed(d, name, a);
    var i := if a.ending.Completed? || a.ending.at >= |states| then |states| - 1 else a.ending.at;
    if name in d.txn.live {
      EveryCrashPoint(d, name, a.mark, a.order, i);
      CompletionRetires(d, name, a.mark, a.order);
    }
    assert Recoverable(states[i], name);
    PowerLossKeepsRecoverable(states[i], name);
  }

  /** The journal has its new name, but only txn/ has a durable one: a dead process has left it so. */
  predicate Exposed(d: Disk, name: nat) {
    name !in d.txn.live && name !in PowerLoss(d).committed.live
  }

  lemma EventKeepsRecoverable(d: Disk, name: nat, e: Event, after: Disk)
    requires Recoverable(d, name) && after == AfterEvent(d, name, e)
    requires e.Finalizing? ==> e.attempt.mark.phase == COMMITTED
    requires e.OtherCommand? ==> !Exposed(d, name)
    ensures Recoverable(after, name)
    ensures IsRetired(d, name) ==> IsRetired(after, name)
    ensures e.Finalizing? && e.attempt.ending.Completed? && name in d.txn.live ==> IsRetired(after, name)
  {
    if e.Finalizing? {
      AttemptKeepsRecoverable(d, name, e.attempt);
    }
  }

  /** None of the first n events is another command that runs while the journal is exposed. */
  ghost predicate NeverExposed(disks: seq<Disk>, name: nat, events: seq<Event>, n: nat)
    requires n <= |events| <= |disks|
  {
    forall i {:trigger disks[i]} :: 0 <= i < n && events[i].OtherCommand? ==> !Exposed(disks[i], name)
  }

  lemma {:induction false} HistoryIsRecoverable(disks: seq<Disk>, name: nat, events: seq<Event>, n: nat)
    requires IsHistory(disks, name, events) && Recoverable(disks[0], name)
    requires n <= |events| && NeverExposed(disks, name, events, n)
    ensures Recoverable(disks[n], name)
  {
    if n > 0 {
      HistoryIsRecoverable(disks, name, events, n - 1);
      assert Follows(disks, name, events, n - 1);
      EventKeepsRecoverable(disks[n - 1], name, events[n - 1], disks[n]);
    }
  }

  /** Event i is an attempt that finds the active journal and runs to its end. */
  predicate RunsToItsEnd(disks: seq<Disk>, name: nat, events: seq<Event>, i: nat)
    requires i < |events| <= |disks|
  {
    events[i].Finalizing? && events[i].attempt.ending.Completed? && name in disks[i].txn.live
  }

  lemma {:induction false} StaysRetired(disks: seq<Disk>, name: nat, events: seq<Event>, i: nat, n: nat)
    requires IsHistory(disks, name, events) && Recoverable(disks[0], name)
    requires i < n <= |events| && NeverExposed(disks, name, events, n) && RunsToItsEnd(disks, name, events, i)
    ensures IsRetired(disks[n], name)
    decreases n
  {
    HistoryIsRecoverable(disks, name, events, n - 1);
    if i < n - 1 {
      StaysRetired(disks, name, events, i, n - 1);
    }
    assert Follows(disks, name, events, n - 1);
    EventKeepsRecoverable(disks[n - 1], name, events[n - 1], disks[n]);
  }

  /** An exposed journal loses its name to another command. */
  lemma LostWhenExposed(d: Disk, name: nat)
    ensures HasDurableName(SyncTxn(d), name) <==> !Exposed(d, name)
  {
  }

  /**
   Crash-safe retirement: however many attempts to finalize a journal are cut
   off, at whatever step, by power losses or by the death of the process, the
   journal keeps a durable name, and one attempt that finds the active journal
   and runs to its end leaves no active journal and one retired copy in phase
   committed, for good.  Other commands in between do no harm exactly when none
   runs while the journal is exposed.
   */
  lemma RetirementIsCrashSafe(disks: seq<Disk>, name: nat, events: seq<Event>)
    requires IsHistory(disks, name, events) && ReadyToFinalize(disks[0], name)
    ensures (forall i {:trigger disks[i]} :: 0 <= i < |disks| ==> HasDurableName(disks[i], name))
       <==> NeverExposed(disks, name, events, |events|)
    ensures forall i, n ::
              0 <= i < n < |disks| && NeverExposed(disks, name, events, n) && RunsToItsEnd(disks, name, events, i) ==>
                IsRetired(disks[n], name)
  {
    if NeverExposed(disks, name, events, |events|) {
      forall i {:trigger disks[i]} | 0 <= i < |disks|
        ensures HasDurableName(disks[i], name)
      {
        HistoryIsRecoverable(disks, name, events, i);
      }
    }
    if forall i {:trigger disks[i]} :: 0 <= i < |disks| ==> HasDurableName(disks[i], name) {
      forall i {:trigger disks[i]} | 0 <= i < |events| && events[i].OtherCommand?
        ensures !Exposed(disks[i], name)
      {
        assert Follows(disks, name, events, i);
        LostWhenExposed(disks[i], name);
      }
    }
    forall i, n | 0 <= i < n < |disks| && NeverExposed(disks, name, events, n) && RunsToItsEnd(disks, name, events, i)
      ensures IsRetired(disks[n], name)
    {
      StaysRetired(disks, name, events, i, n);
    }
  }

  /** A retired journal of the same name and other content stops the retirement and is kept. */
  lemma OtherRetiredJournalIsKept(d: Disk, name: nat, mark: Journal, order: seq<Part>)
    requires name in d.txn.live && name in d.committed.live
    requires d.committed.live[name] != if d.txn.live[name].phase == COMMITTED then d.txn.live[name] else mark
    ensures var end := Last(d, Trace(d, name, mark, order));
            name in end.txn.live && end.committed.live == d.committed.live
  {
    var flushed := SyncFs(d);
    assert Last(d, Trace(d, name, mark, order)) == Last(flushed, MarkAndRetire(flushed, name, mark));
  }

  /** The index of the state between the rename and the fsync of committed/. */
  function RenamedAt(d: Disk, name: nat, mark: Journal, order: seq<Part>): nat
    requires name in d.txn.live
  {
    1 + |order| + |MarkTrace(SyncFs(d), name, mark)| + 3
  }

  /**
   A dead process leaves the live view, and then another command's fsync of txn/
   can come before the next finalize.  The journal is exposed to that at exactly
   one step, between the rename and the fsync of committed/.
   */
  lemma ExposedExactly(d: Disk, name: nat, mark: Journal, order: seq<Part>, i: nat)
    requires Recoverable(d, name) && name in d.txn.live && mark.phase == COMMITTED
    requires i < |Trace(d, name, mark, order)|
    ensures Exposed(Trace(d, name, mark, order)[i], name)
       <==> name !in d.committed.live && i == RenamedAt(d, name, mark, order)
    ensures HasDurableName(SyncTxn(Trace(d, name, mark, order)[i]), name)
       <==> !Exposed(Trace(d, name, mark, order)[i], name)
  {
    var flushed := SyncFs(d);
    FlushedIsRecoverable(d, name);
    if 0 < i <= |order| {
      FlushingKeepsRecoverable(d, name, order[..i]);
    } else if i > |order| {
      ExposedOnceFlushed(flushed, name, mark, i - 1 - |order|);
    }
  }

  lemma ExposedOnceFlushed(d: Disk, name: nat, mark: Journal, i: nat)
    requires Recoverable(d, name) && name in d.txn.live && d.txn.live[name] == d.txn.durable[name]
    requires mark.phase == COMMITTED && i < |MarkAndRetire(d, name, mark)|
    ensures Exposed(MarkAndRetire(d, name, mark)[i], name)
       <==> name !in d.committed.live && i == |MarkTrace(d, name, mark)| + 3
    ensures HasDurableName(SyncTxn(MarkAndRetire(d, name, mark)[i]), name)
       <==> !Exposed(MarkAndRetire(d, name, mark)[i], name)
  {
    var marked := MarkTrace(d, name, mark);
    Marked(d, name, mark);
    MarkAndRetireKeepsRecoverable(d, name, mark, i);
  }

  /** The attempt dies between the rename and the fsync of committed/. */
  predicate DiesRenamed(d: Disk, name: nat, e: Event) {
    && name in d.txn.live && name !in d.committed.live
    && e.Finalizing? && e.attempt.ending.Died?
    && e.attempt.ending.at == RenamedAt(d, name, e.attempt.mark, e.attempt.order)
  }

  /** Without an active journal an attempt changes nothing, unless the power fails. */
  predicate LeavesExposed(e: Event) {
    e.Finalizing? && !e.attempt.ending.PowerLost?
  }

  lemma PowerLossHides(d: Disk, name: nat)
    requires Recoverable(d, name)
    ensures !Exposed(PowerLoss(d), name)
  {
  }

  lemma RenamedIsPassed(d: Disk, name: nat, mark: Journal, order: seq<Part>)
    requires name in d.txn.live && name !in d.committed.live
    ensures RenamedAt(d, name, mark, order) < |Trace(d, name, mark, order)| - 1
  {
  }

  lemma AttemptExposes(d: Disk, name: nat, a: Attempt)
    requires Recoverable(d, name) && name in d.txn.live && a.mark.phase == COMMITTED
    ensures Exposed(After(d, name, a), name) <==> DiesRenamed(d, name, Finalizing(a))
  {
    var states := Trace(d, name, a.mark, a.order);
    var i := if a.ending.Completed? || a.ending.at >= |states| then |states| - 1 else a.ending.at;
    ExposedExactly(d, name, a.mark, a.order, i);
    EveryCrashPoint(d, name, a.mark, a.order, i);
    PowerLossHides(states[i], name);
    if name !in d.committed.live {
      RenamedIsPassed(d, name, a.mark, a.order);
    }
  }

  lemma EventExposes(d: Disk, name: nat, e: Event, after: Disk)
    requires Recoverable(d, name) && after == AfterEvent(d, name, e)
    requires e.Finalizing? ==> e.attempt.mark.phase == COMMITTED
    requires e.OtherCommand? ==> !Exposed(d, name)
    ensures Exposed(after, name) <==> DiesRenamed(d, name, e) || (Exposed(d, name) && LeavesExposed(e))
  {
    if e.Finalizing? {
      if name in d.txn.live {
        AttemptExposes(d, name, e.attempt);
      } else {
        PowerLossHides(d, name);
      }
    }
  }

  /** The journal became exposed at event k, and nothing since has ended that. */
  ghost predicate ExposedSince(disks: seq<Disk>, name: nat, events: seq<Event>, k: nat, n: nat)
    requires k < n <= |events| <= |disks|
  {
    DiesRenamed(disks[k], name, events[k]) && forall m {:trigger events[m]} :: k < m < n ==> LeavesExposed(events[m])
  }

  /** One of the first n events has exposed the journal, and it still is. */
  ghost predicate HasBeenExposed(disks: seq<Disk>, name: nat, events: seq<Event>, n: nat)
    requires n <= |events| <= |disks|
  {
    exists k {:trigger disks[k]} :: 0 <= k < n && ExposedSince(disks, name, events, k, n)
  }

  /**
   Over a history, the journal is exposed exactly when the last attempt that
   found its active name died between the rename and the fsync of committed/,
   and there has been no power loss since.
   */
  lemma {:induction false} ExposedOverAHistory(disks: seq<Disk>, name: nat, events: seq<Event>, n: nat)
    requires IsHistory(disks, name, events) && ReadyToFinalize(disks[0], name)
    requires n <= |events| && NeverExposed(disks, name, events, n)
    ensures Exposed(disks[n], name) <==> HasBeenExposed(disks, name, events, n)
  {
    if n > 0 {
      HistoryIsRecoverable(disks, name, events, n - 1);
      ExposedOverAHistory(disks, name, events, n - 1);
      assert Follows(disks, name, events, n - 1);
      EventExposes(disks[n - 1], name, events[n - 1], disks[n]);
      ExposedLater(disks, name, events, n);
    }
  }

  lemma ExposedLater(disks: seq<Disk>, name: nat, events: seq<Event>, n: nat)
    requires 0 < n <= |events| <= |disks|
    ensures HasBeenExposed(disks, name, events, n)
       <==> || DiesRenamed(disks[n - 1], name, events[n - 1])
            || (LeavesExposed(events[n - 1]) && HasBeenExposed(disks, name, events, n - 1))
  {
    if HasBeenExposed(disks, name, events, n) {
      var k :| 0 <= k < n && ExposedSince(disks, name, events, k, n);
      assert k < n - 1 ==> ExposedSince(disks, name, events, k, n - 1);
    }
    if DiesRenamed(disks[n - 1], name, events[n - 1]) {
      assert ExposedSince(disks, name, events, n - 1, n);
    }
    if LeavesExposed(events[n - 1]) && HasBeenExposed(disks, name, events, n - 1) {
      var k :| 0 <= k < n - 1 && ExposedSince(disks, name, events, k, n - 1);
      assert ExposedSince(disks, name, events, k, n);
    }
  }

  // ----- What a crash leaves, told as a command -----

  /** The control directory as the next command finds it. */
  function ControlOf(d: Disk): Control {
    Control(d.txn.live, d.committed.live)
  }

  /** Every earlier command has fsynced what it changed. */
  ghost predicate AllDurable(d: Disk) {
    && d.txn.live == d.txn.durable && d.committed.live == d.committed.durable
    && (d.committed.live != map[] ==> d.hasCommitted && d.committedIsDurable)
    && (d.committedIsDurable ==> d.hasCommitted)
  }

  /** What the command leaves when it runs to its end, when it is stopped, or when it has not begun to write. */
  ghost predicate IsOutcome(c: Control, name: nat, m: Journal, after: Control)
    requires name in c.active
  {
    var marked := Store(c, name, m);
    || after == c
    || after == marked
    || after == Retire(marked, name).control
    || ((name in c.retired ==> c.retired[name] == m) && after == marked.(retired := c.retired[name := m]))
  }

  /** The journal that is retired. */
  function MarkedJournal(d: Disk, name: nat, mark: Journal): Journal
    requires name in d.txn.live
  {
    if d.txn.live[name].phase == COMMITTED then d.txn.live[name] else mark
  }

  lemma {:induction false} FlushingIsUnseen(d: Disk, order: seq<Part>)
    requires AllDurable(d)
    ensures AllDurable(Flushing(d, order)) && ControlOf(Flushing(d, order)) == ControlOf(d)
  {
    if order != [] {
      FlushingIsUnseen(d, order[..|order| - 1]);
    }
  }

  lemma DurableSurvives(d: Disk)
    requires AllDurable(d)
    ensures ControlOf(PowerLoss(d)) == ControlOf(d)
  {
  }

  lemma MarkingOutcome(d: Disk, name: nat, mark: Journal, i: nat)
    requires AllDurable(d) && name in d.txn.live && i < |MarkTrace(d, name, mark)|
    ensures var s := MarkTrace(d, name, mark)[i];
            && IsOutcome(ControlOf(d), name, MarkedJournal(d, name, mark), ControlOf(s))
            && IsOutcome(ControlOf(d), name, MarkedJournal(d, name, mark), ControlOf(PowerLoss(s)))
  {
  }

  /** From the marked journal on; `c` is the directory before it was marked. */
  lemma RetiringOutcome(c: Control, d: Disk, name: nat, m: Journal, i: nat)
    requires AllDurable(d) && name in c.active && ControlOf(d) == Store(c, name, m) && i < |RetireTrace(d, name)|
    ensures var s := RetireTrace(d, name)[i];
            IsOutcome(c, name, m, ControlOf(s)) && IsOutcome(c, name, m, ControlOf(PowerLoss(s)))
  {
    var made, hardened := MakeCommitted(d), SyncControl(MakeCommitted(d));
    assert d.txn.live[name] == m;
    if name !in d.committed.live {
      var moved := Move(hardened, name);
      assert ControlOf(moved) == Retire(Store(c, name, m), name).control;
      assert ControlOf(PowerLoss(moved)) == Store(c, name, m);
    } else if d.committed.live[name] == m {
      assert d.committed.live[name := m] == d.committed.live;
    }
  }

  lemma MarkedDisk(d: Disk, name: nat, mark: Journal)
    requires AllDurable(d) && name in d.txn.live
    ensures var marked := Last(d, MarkTrace(d, name, mark));
            && AllDurable(marked) && name in marked.txn.live
            && ControlOf(marked) == Store(ControlOf(d), name, MarkedJournal(d, name, mark))
  {
    assert d.txn.live[name := d.txn.live[name]] == d.txn.live;
  }

  /**
   Wherever a finalize is cut off, by the death of its process or by a power
   loss, the next command finds what one of the modelled commands leaves: the
   directory as it was, the marked journal in place, both names, or the
   finished retirement.
   */
  lemma CrashesAreOutcomes(d: Disk, name: nat, mark: Journal, order: seq<Part>, i: nat)
    requires AllDurable(d) && name in d.txn.live && i < |Trace(d, name, mark, order)|
    ensures var s, m := Trace(d, name, mark, order)[i], MarkedJournal(d, name, mark);
            IsOutcome(ControlOf(d), name, m, ControlOf(s)) && IsOutcome(ControlOf(d), name, m, ControlOf(PowerLoss(s)))
  {
    var c, m := ControlOf(d), MarkedJournal(d, name, mark);
    var s := Trace(d, name, mark, order)[i];
    if i <= |order| {
      FlushingIsUnseen(d, order[..i]);
      assert s == Flushing(d, order[..i]);
      DurableSurvives(s);
    } else {
      var flushed := SyncFs(d);
      assert AllDurable(flushed) && ControlOf(flushed) == c;
      var marking := MarkTrace(flushed, name, mark);
      var k := i - 1 - |order|;
      if k == 0 {
        DurableSurvives(flushed);
      } else if k <= |marking| {
        MarkingOutcome(flushed, name, mark, k - 1);
      } else {
        MarkedDisk(flushed, name, mark);
        RetiringOutcome(c, Last(flushed, marking), name, m, k - 1 - |marking|);
      }
    }
  }

  /** Nothing, or what one of the commands that stand for a finalize and its crashes does. */
  ghost predicate IsStoppedFinalize(c: Control, repo: Repository, name: nat, at: string, after: Control) {
    || after == c
    || after == Execute(c, repo, FinalizeCommand(name, at))
    || after == Execute(c, repo, FinalizeUnmoved(name, at))
    || after == Execute(c, repo, FinalizeBothNames(name, at))
  }

  lemma OutcomesAreCommands(c: Control, repo: Repository, name: nat, at: string, after: Control)
    requires SoundControl(c) && FinalizeChecks(c, repo, name).Success?
    requires name in c.active && IsOutcome(c, name, Committed(c.active[name], repo, at), after)
    ensures IsStoppedFinalize(c, repo, name, at, after)
  {
    ChecksSay(c, repo, name);
    OutcomesOfChecked(c, repo, name, at, FinalizeChecks(c, repo, name));
    StoppedExecutes(c, repo, name, at);
    FinishedExecutes(c, repo, name, at);
    BothNamesExecutes(c, repo, name, at);
  }

  lemma OutcomesOfChecked(c: Control, repo: Repository, name: nat, at: string, checked: Result<Journal, Error>)
    requires name in c.active && checked == Success(c.active[name])
    ensures var m := Committed(c.active[name], repo, at);
            var marked := Store(c, name, m);
            && Unmoved(c, repo, name, at, checked) == marked
            && Finished(c, repo, name, at, checked).control == Retire(marked, name).control
            && ((name in c.retired ==> c.retired[name] == m) ==>
                  BothNames(c, repo, name, at, checked) == marked.(retired := c.retired[name := m]))
  {
  }

  lemma StoppedExecutes(c: Control, repo: Repository, name: nat, at: string)
    ensures Execute(c, repo, FinalizeUnmoved(name, at)) == Unmoved(c, repo, name, at, FinalizeChecks(c, repo, name))
  {
  }

  lemma FinishedExecutes(c: Control, repo: Repository, name: nat, at: string)
    ensures Execute(c, repo, FinalizeCommand(name, at))
         == Finished(c, repo, name, at, FinalizeChecks(c, repo, name)).control
  {
  }

  lemma BothNamesExecutes(c: Control, repo: Repository, name: nat, at: string)
    ensures Execute(c, repo, FinalizeBothNames(name, at)) == BothNames(c, repo, name, at, FinalizeChecks(c, repo, name))
  {
  }

  /** So a finalize that is cut off does to a durable directory what a command of the runs does, or nothing. */
  lemma CrashesAreCommands(d: Disk, repo: Repository, name: nat, at: string, order: seq<Part>, i: nat)
    requires AllDurable(d) && SoundControl(ControlOf(d)) && FinalizeChecks(ControlOf(d), repo, name).Success?
    requires name in d.txn.live
    requires i < |Trace(d, name, Committed(d.txn.live[name], repo, at), order)|
    ensures var s := Trace(d, name, Committed(d.txn.live[name], repo, at), order)[i];
            && IsStoppedFinalize(ControlOf(d), repo, name, at, ControlOf(s))
            && IsStoppedFinalize(ControlOf(d), repo, name, at, ControlOf(PowerLoss(s)))
  {
    var mark := Committed(d.txn.live[name], repo, at);
    ChecksSay(ControlOf(d), repo, name);
    CrashesAreOutcomes(d, name, mark, order, i);
    assert MarkedJournal(d, name, mark) == mark;
    var s := Trace(d, name, mark, order)[i];
    OutcomesAreCommands(ControlOf(d), repo, name, at, ControlOf(s));
    OutcomesAreCommands(ControlOf(d), repo, name, at, ControlOf(PowerLoss(s)));
  }

  // ----- Any number of crashes, told as one command -----

  /** The journal that some finalize of this directory would retire. */
  ghost predicate IsMark(c: Control, name: nat, m: Journal)
    requires name in c.active
  {
    exists repo, at {:trigger Committed(c.active[name], repo, at)} ::
      FinalizeChecks(c, repo, name).Success? && m == Committed(c.active[name], repo, at)
  }

  lemma MarksAreCommitted(c: Control, name: nat, m: Journal)
    requires SoundControl(c) && name in c.active && IsMark(c, name, m)
    ensures m.phase == COMMITTED
  {
    var repo, at :| FinalizeChecks(c, repo, name).Success? && m == Committed(c.active[name], repo, at);
    ChecksSay(c, repo, name);
  }

  /** Nothing but this journal has changed in the map. */
  ghost predicate OnlyAt(name: nat, now: map<nat, Journal>, start: map<nat, Journal>) {
    forall k {:trigger k in now} {:trigger k in start} :: k != name ==> (k in now <==> k in start) && (k in now ==> now[k] == start[k])
  }

  /** In both views the other journals are those of the start, and this one is as it was or marked. */
  ghost predicate Kept(d: Disk, c: Control, name: nat, isMark: Journal -> bool)
    requires name in c.active
  {
    && OnlyAt(name, d.txn.live, c.active) && OnlyAt(name, d.txn.durable, c.active)
    && OnlyAt(name, d.committed.live, c.retired) && OnlyAt(name, d.committed.durable, c.retired)
    && (name in d.txn.live || name in d.committed.live)
    && (name in d.txn.live ==> d.txn.live[name] == c.active[name] || isMark(d.txn.live[name]))
    && (name in d.txn.durable ==> d.txn.durable[name] == c.active[name] || isMark(d.txn.durable[name]))
    && (name in d.committed.live ==> isMark(d.committed.live[name]))
    && (name in d.committed.durable ==> isMark(d.committed.durable[name]))
  }

  lemma {:induction false} FlushingKeeps(d: Disk, c: Control, name: nat, isMark: Journal -> bool, order: seq<Part>)
    requires name in c.active && Kept(d, c, name, isMark)
    ensures Kept(Flushing(d, order), c, name, isMark) && Flushing(d, order).txn.live == d.txn.live
  {
    if order != [] {
      FlushingKeeps(d, c, name, isMark, order[..|order| - 1]);
    }
  }

  lemma MarkingKeeps(d: Disk, c: Control, name: nat, isMark: Journal -> bool, mark: Journal, i: nat)
    requires name in c.active && Kept(d, c, name, isMark) && isMark(mark)
    requires name in d.txn.live && i < |MarkTrace(d, name, mark)|
    ensures Kept(MarkTrace(d, name, mark)[i], c, name, isMark)
  {
  }

  lemma RetiringKeeps(d: Disk, c: Control, name: nat, isMark: Journal -> bool, i: nat)
    requires name in c.active && Kept(d, c, name, isMark)
    requires name in d.txn.live && isMark(d.txn.live[name]) && i < |RetireTrace(d, name)|
    ensures Kept(RetireTrace(d, name)[i], c, name, isMark)
  {
    var made := MakeCommitted(d);
    SyncsKeep(d, c, name, isMark);
    if name in d.committed.live {
      if d.committed.live[name] == d.txn.live[name] {
        var synced := SyncCommitted(made);
        SyncsKeep(made, c, name, isMark);
        UnlinkKeeps(synced, c, name, isMark);
        SyncsKeep(Unlink(synced, name), c, name, isMark);
      }
    } else {
      var hardened := SyncControl(made);
      SyncsKeep(made, c, name, isMark);
      MoveKeeps(hardened, c, name, isMark);
      var moved := Move(hardened, name);
      SyncsKeep(moved, c, name, isMark);
      SyncsKeep(SyncCommitted(moved), c, name, isMark);
    }
  }

  lemma SyncsKeep(d: Disk, c: Control, name: nat, isMark: Journal -> bool)
    requires name in c.active && Kept(d, c, name, isMark)
    ensures Kept(SyncTxn(d), c, name, isMark) && Kept(SyncCommitted(d), c, name, isMark)
    ensures Kept(SyncControl(d), c, name, isMark) && Kept(MakeCommitted(d), c, name, isMark)
  {
  }

  lemma UnlinkKeeps(d: Disk, c: Control, name: nat, isMark: Journal -> bool)
    requires name in c.active && Kept(d, c, name, isMark) && name in d.committed.live
    ensures Kept(Unlink(d, name), c, name, isMark)
  {
  }

  lemma MoveKeeps(d: Disk, c: Control, name: nat, isMark: Journal -> bool)
    requires name in c.active && Kept(d, c, name, isMark) && name in d.txn.live && isMark(d.txn.live[name])
    ensures Kept(Move(d, name), c, name, isMark)
  {
  }

  lemma TraceKeeps(d: Disk, c: Control, name: nat, isMark: Journal -> bool, mark: Journal, order: seq<Part>, i: nat)
    requires name in c.active && Kept(d, c, name, isMark) && isMark(mark) && name in d.txn.live
    requires d.txn.live[name].phase == COMMITTED ==> isMark(d.txn.live[name])
    requires i < |Trace(d, name, mark, order)|
    ensures Kept(Trace(d, name, mark, order)[i], c, name, isMark)
  {
    if i <= |order| {
      FlushingKeeps(d, c, name, isMark, order[..i]);
    } else {
      var flushed := SyncFs(d);
      var marking := MarkTrace(flushed, name, mark);
      var k := i - 1 - |order|;
      if marking != [] {
        MarkingKeeps(flushed, c, name, isMark, mark, |marking| - 1);
      }
      if 0 < k <= |marking| {
        MarkingKeeps(flushed, c, name, isMark, mark, k - 1);
      } else if k > |marking| {
        RetiringKeeps(Last(flushed, marking), c, name, isMark, k - 1 - |marking|);
      }
    }
  }

  lemma PowerLossKeeps(d: Disk, c: Control, name: nat, isMark: Journal -> bool)
    requires name in c.active && Kept(d, c, name, isMark) && Recoverable(d, name)
    ensures Kept(PowerLoss(d), c, name, isMark)
  {
  }

  lemma OnlyAtIs(name: nat, now: map<nat, Journal>, start: map<nat, Journal>)
    requires OnlyAt(name, now, start)
    ensures now == if name in now then start[name := now[name]] else start - {name}
  {
  }

  /** A disk that keeps the start is what finalize, or a crash of it, makes of the start. */
  lemma KeptIsOutcome(d: Disk, c: Control, name: nat, isMark: Journal -> bool) returns (m: Journal)
    requires name in c.active && name !in c.retired
    requires Kept(d, c, name, isMark) && Recoverable(d, name)
    ensures ControlOf(d) == c || (isMark(m) && IsOutcome(c, name, m, ControlOf(d)))
    ensures name in d.txn.live && d.txn.live[name] == c.active[name] && !isMark(c.active[name]) ==> ControlOf(d) == c
  {
    m := if name in d.txn.live then d.txn.live[name] else d.committed.live[name];
    OnlyAtIs(name, d.txn.live, c.active);
    OnlyAtIs(name, d.committed.live, c.retired);
    assert c.retired - {name} == c.retired;
    assert c.active[name := c.active[name]] == c.active;
    OutcomeOfViews(c, name, m, ControlOf(d));
  }

  lemma OutcomeOfViews(c: Control, name: nat, m: Journal, after: Control)
    requires name in c.active && name !in c.retired
    requires || after == Control(c.active[name := m], c.retired)
             || after == Control(c.active[name := m], c.retired[name := m])
             || after == Control(c.active - {name}, c.retired[name := m])
    ensures IsOutcome(c, name, m, after)
  {
    assert Store(c, name, m).active - {name} == c.active - {name};
  }

  /** The attempt wrote only after its checks had passed on the directory that it found. */
  ghost predicate ChecksPassed(d: Disk, name: nat, a: Attempt) {
    name in d.txn.live ==> IsMark(ControlOf(d), name, a.mark)
  }

  /** A directory in which `name` can be finalized for the first time. */
  ghost predicate Unmarked(c: Control, name: nat) {
    SoundControl(c) && name in c.active && c.active[name].phase != COMMITTED && name !in c.retired
  }

  ghost function Marks(c: Control, name: nat): Journal -> bool
    requires name in c.active
  {
    m => IsMark(c, name, m)
  }

  /** An attempt that finds a marked journal does not mark it again. */
  lemma FoundMark(d: Disk, c: Control, name: nat, mark: Journal)
    requires Unmarked(c, name) && Kept(d, c, name, Marks(c, name)) && Recoverable(d, name)
    requires name in d.txn.live && IsMark(ControlOf(d), name, mark)
    ensures IsMark(c, name, mark) && mark.phase == COMMITTED
    ensures d.txn.live[name].phase == COMMITTED ==> IsMark(c, name, d.txn.live[name])
  {
    if d.txn.live[name] == c.active[name] {
      if IsMark(c, name, c.active[name]) {
        MarksAreCommitted(c, name, c.active[name]);
      }
      var _ := KeptIsOutcome(d, c, name, Marks(c, name));
    } else {
      MarksAreCommitted(c, name, d.txn.live[name]);
      var repo, at :| mark == Committed(ControlOf(d).active[name], repo, at);
    }
    MarksAreCommitted(c, name, mark);
  }

  lemma AttemptKeeps(d: Disk, c: Control, name: nat, a: Attempt, isMark: Journal -> bool)
    requires name in c.active && Kept(d, c, name, isMark) && Recoverable(d, name) && a.mark.phase == COMMITTED
    requires name in d.txn.live ==> isMark(a.mark)
    requires name in d.txn.live && d.txn.live[name].phase == COMMITTED ==> isMark(d.txn.live[name])
    ensures Kept(After(d, name, a), c, name, isMark)
  {
    var states := Passed(d, name, a);
    var i := if a.ending.Completed? || a.ending.at >= |states| then |states| - 1 else a.ending.at;
    if name in d.txn.live {
      EveryCrashPoint(d, name, a.mark, a.order, i);
      TraceKeeps(d, c, name, isMark, a.mark, a.order, i);
    }
    PowerLossKeeps(states[i], c, name, isMark);
  }

  lemma EventKeeps(d: Disk, c: Control, name: nat, e: Event, after: Disk)
    requires Unmarked(c, name) && Kept(d, c, name, Marks(c, name)) && Recoverable(d, name)
    requires after == AfterEvent(d, name, e)
    requires e.Finalizing? ==> e.attempt.mark.phase == COMMITTED && ChecksPassed(d, name, e.attempt)
    ensures Kept(after, c, name, Marks(c, name))
  {
    if e.Finalizing? {
      if name in d.txn.live {
        FoundMark(d, c, name, e.attempt.mark);
      }
      AttemptKeeps(d, c, name, e.attempt, Marks(c, name));
    } else {
      SyncsKeep(d, c, name, Marks(c, name));
    }
  }

  ghost predicate AllPassed(disks: seq<Disk>, name: nat, events: seq<Event>, n: nat)
    requires n <= |events| <= |disks|
  {
    forall i {:trigger PassedAt(disks, name, events, i)} :: 0 <= i < n ==> PassedAt(disks, name, events, i)
  }

  ghost predicate PassedAt(disks: seq<Disk>, name: nat, events: seq<Event>, i: nat)
    requires i < |events| <= |disks|
  {
    events[i].Finalizing? ==> ChecksPassed(disks[i], name, events[i].attempt)
  }

  /** The invariant of a history. */
  ghost function Staying(c: Control, name: nat): Disk -> bool
    requires name in c.active
  {
    d => Recoverable(d, name) && Kept(d, c, name, Marks(c, name))
  }

  lemma EventStays(d: Disk, c: Control, name: nat, e: Event, after: Disk)
    requires Unmarked(c, name) && Staying(c, name)(d) && after == AfterEvent(d, name, e)
    requires e.Finalizing? ==> e.attempt.mark.phase == COMMITTED && ChecksPassed(d, name, e.attempt)
    requires e.OtherCommand? ==> !Exposed(d, name)
    ensures Staying(c, name)(after)
  {
    EventKeepsRecoverable(d, name, e, after);
    EventKeeps(d, c, name, e, after);
  }

  lemma StartKeeps(d: Disk, name: nat)
    requires AllDurable(d) && Unmarked(ControlOf(d), name)
    ensures ReadyToFinalize(d, name) && Recoverable(d, name)
    ensures Kept(d, ControlOf(d), name, Marks(ControlOf(d), name))
  {
  }

  lemma {:induction false} HistoryStays(disks: seq<Disk>, c: Control, name: nat, events: seq<Event>, n: nat,
                                        stays: Disk -> bool)
    requires IsHistory(disks, name, events) && Unmarked(c, name) && stays == Staying(c, name) && stays(disks[0])
    requires n <= |events| && NeverExposed(disks, name, events, n) && AllPassed(disks, name, events, n)
    ensures stays(disks[n])
  {
    if n > 0 {
      HistoryStays(disks, c, name, events, n - 1, stays);
      assert Follows(disks, name, events, n - 1) && PassedAt(disks, name, events, n - 1);
      EventStays(disks[n - 1], c, name, events[n - 1], disks[n]);
    }
  }

  /** Nothing, or what one finalize of this directory, with some passing checks, does or leaves at a crash. */
  ghost predicate IsOneFinalize(c: Control, name: nat, after: Control) {
    || after == c
    || exists repo, at {:trigger IsStoppedFinalize(c, repo, name, at, after)} ::
         FinalizeChecks(c, repo, name).Success? && IsStoppedFinalize(c, repo, name, at, after)
  }

  /**
   However many attempts to finalize a journal have been cut off, by power losses
   or by the death of the process, and have been repeated: what the next command
   finds is what a single command of the runs leaves of the directory before the
   first attempt, provided that no other command has run while the journal was
   exposed.
   */
  lemma HistoriesAreCommands(disks: seq<Disk>, name: nat, events: seq<Event>, n: nat)
    requires IsHistory(disks, name, events) && AllDurable(disks[0]) && Unmarked(ControlOf(disks[0]), name)
    requires n <= |events| && NeverExposed(disks, name, events, n) && AllPassed(disks, name, events, n)
    ensures IsOneFinalize(ControlOf(disks[0]), name, ControlOf(disks[n]))
  {
    var c := ControlOf(disks[0]);
    StartKeeps(disks[0], name);
    HistoryStays(disks, c, name, events, n, Staying(c, name));
    var m := KeptIsOutcome(disks[n], c, name, Marks(c, name));
    if ControlOf(disks[n]) != c {
      var repo, at :| FinalizeChecks(c, repo, name).Success? && m == Committed(c.active[name], repo, at);
      OutcomesAreCommands(c, repo, name, at, ControlOf(disks[n]));
    }
  }

  // ----- The same steps as the command performs them -----

  class ControlDirectory {
    var disk: Disk
    ghost var history: seq<Disk>

    constructor (d: Disk)
      ensures disk == d && history == [d]
    {
      disk := d;
      history := [d];
    }

    method Perform(next: Disk)
      modifies this
      ensures disk == next && history == old(history) + [next]
    {
      disk := next;
      history := history + [next];
    }

    /** `atomic_json` of the journal into txn/. */
    method AtomicJson(name: nat, j: Journal)
      modifies this
      ensures disk == SyncTxn(ReplaceActive(old(disk), name, j))
      ensures history == old(history) + [ReplaceActive(old(disk), name, j), disk]
    {
      Perform(ReplaceActive(disk, name, j));
      Perform(SyncTxn(disk));
    }

    /** `retire_journal`; false when a different retired journal is in the way. */
    method RetireJournal(name: nat) returns (retired: bool)
      requires name in disk.txn.live
      modifies this
      ensures history == old(history) + RetireTrace(old(disk), name)
      ensures disk == Last(old(disk), RetireTrace(old(disk), name))
      ensures retired <==> name in old(disk.committed.live) ==> old(disk.committed.live)[name] == old(disk.txn.live)[name]
    {
      Perform(MakeCommitted(disk));
      if name in disk.committed.live {
        if disk.committed.live[name] != disk.txn.live[name] {
          return false;
        }
        Perform(SyncCommitted(disk));
        Perform(Unlink(disk, name));
        Perform(SyncTxn(disk));
        return true;
      }
      Perform(SyncControl(disk));
      Perform(Move(disk, name));
      Perform(SyncCommitted(disk));
      Perform(SyncTxn(disk));
      return true;
    }

    /** `sync_repository_filesystems` as far as the control directory is concerned. */
    method SyncRepositoryFilesystems(order: seq<Part>)
      modifies this
      ensures history == old(history) + FlushTrace(old(disk), order)
      ensures disk == SyncFs(old(disk))
    {
      ghost var d, before := disk, history;
      assert order[..0] == [];
      for n := 0 to |order|
        invariant disk == Flushing(d, order[..n])
        invariant history == before + FlushTrace(d, order)[..n]
      {
        assert order[..n + 1][..n] == order[..n];
        Perform(SyncPart(disk, order[n]));
        assert FlushTrace(d, order)[..n + 1] == FlushTrace(d, order)[..n] + [disk];
      }
      FlushingThenAll(d, order);
      assert order[..|order|] == order;
      Perform(SyncFs(disk));
      assert FlushTrace(d, order) == FlushTrace(d, order)[..|order|] + [disk];
    }

    /** The end of `finalize`, after its checks: every state it passes through is in the trace. */
    method FinishFinalize(name: nat, mark: Journal, order: seq<Part>) returns (retired: bool)
      requires name in disk.txn.live && history == [disk]
      modifies this
      ensures history == Trace(old(disk), name, mark, order)
      ensures disk == Last(old(disk), history)
    {
      SyncRepositoryFilesystems(order);
      if disk.txn.live[name].phase != COMMITTED {
        AtomicJson(name, mark);
      }
      retired := RetireJournal(name);
    }
  }
}
