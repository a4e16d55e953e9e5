/** The states of marking and retiring a journal follow each other by one system call each. */
module RetirementCalls {
  import opened Git
  import opened Retirement
  import opened Transaction

  /** What a system call on txn/ and committed/ may do. */
  ghost predicate OneCall(d: Disk, e: Disk, name: nat, mark: Journal) {
    var t, c := d.txn, d.committed;
    || e == Disk(true, d.committedIsDurable, t, c)
    || e == Disk(d.hasCommitted, d.hasCommitted, t, c)
    || e == d.(txn := Directory(t.live, t.live))
    || e == d.(committed := Directory(c.live, c.live))
    || e == d.(txn := Directory(t.live[name := mark], t.durable))
    || (name in t.live
        && e == d.(txn := Directory(t.live - {name}, t.durable),
                   committed := Directory(c.live[name := t.live[name]], c.durable)))
    || (name in t.live && name in c.live && c.live[name] == t.live[name]
        && e == d.(txn := Directory(t.live - {name}, t.durable)))
  }

  ghost predicate CallAt(states: seq<Disk>, i: nat, name: nat, mark: Journal)
    requires i + 1 < |states|
  {
    OneCall(states[i], states[i + 1], name, mark)
  }

  ghost predicate AllCalls(states: seq<Disk>, name: nat, mark: Journal) {
    forall i {:trigger CallAt(states, i, name, mark)} :: 0 <= i < |states| - 1 ==> CallAt(states, i, name, mark)
  }

  lemma AllCallsJoin(a: seq<Disk>, b: seq<Disk>, name: nat, mark: Journal)
    requires a != [] && AllCalls(a, name, mark) && AllCalls([a[|a| - 1]] + b, name, mark)
    ensures AllCalls(a + b, name, mark)
  {
    var s, after := a + b, [a[|a| - 1]] + b;
    forall i {:trigger CallAt(s, i, name, mark)} | 0 <= i < |s| - 1
      ensures CallAt(s, i, name, mark)
    {
      if i < |a| - 1 {
        assert CallAt(a, i, name, mark);
      } else {
        var k := i - (|a| - 1);
        assert CallAt(after, k, name, mark);
        assert s[i] == after[k] && s[i + 1] == after[k + 1];
      }
    }
  }

  lemma MarkingCalls(d: Disk, name: nat, mark: Journal)
    requires name in d.txn.live
    ensures AllCalls([d] + MarkTrace(d, name, mark), name, mark)
  {
  }

  lemma RetiringCalls(d: Disk, name: nat, mark: Journal)
    requires name in d.txn.live
    ensures AllCalls([d] + RetireTrace(d, name), name, mark)
  {
  }

  /** Marking and retiring is a sequence of system calls, each on the state that the last one left. */
  lemma MarkAndRetireByCalls(d: Disk, name: nat, mark: Journal)
    requires name in d.txn.live
    ensures AllCalls(MarkAndRetire(d, name, mark), name, mark)
  {
    var marked := [d] + MarkTrace(d, name, mark);
    MarkingCalls(d, name, mark);
    assert Last(d, MarkTrace(d, name, mark)) == marked[|marked| - 1];
    RetiringCalls(marked[|marked| - 1], name, mark);
    AllCallsJoin(marked, RetireTrace(marked[|marked| - 1], name), name, mark);
  }
}
