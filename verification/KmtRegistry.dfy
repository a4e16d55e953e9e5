/** The allocations and queues that a capsule reads from the worker's KMT trace. */
module KmtRegistry {
  import opened Wrappers

  const UINT64: nat := 0x1_0000_0000_0000_0000

  /** A size in the trace has no leading zero. */
  type Positive = n: nat | n > 0 witness 1

  datatype Allocation = Allocation(
    line: nat,
    ordinal: nat,
    pid: nat,
    gpu: nat,
    flags: nat,
    va: nat,
    bytes: nat,
    offset: nat,
    handle: nat)
  {
    /** Flag 4, the third bit, marks memory of the process itself. */
    predicate UserPointer() {
      flags / 4 % 2 == 1
    }

    predicate Contains(address: int, count: int) {
      count > 0 && address >= va && address - va <= bytes && count <= bytes - (address - va)
    }
  }

  lemma UserPointerIsThirdBit(a: Allocation, high: nat, bit: nat, low: nat)
    requires a.flags == 8 * high + 4 * bit + low && bit < 2 && low < 4
    ensures a.UserPointer() <==> bit == 1
  {
    assert a.flags / 4 == 2 * high + bit;
  }

  datatype Progress = Progress(line: nat, slot: nat, doorbell: nat, completion: nat)

  datatype Queue = Queue(
    line: nat,
    id: nat,
    ringVa: nat,
    ringBytes: nat,
    readPointer: nat,
    writePointer: nat,
    doorbellOffset: nat,
    active: bool,
    progress: seq<Progress>)

  /** One complete line of the trace; a free names neither handle nor address, so it is `Other`. */
  datatype Line =
    | Allocated(pid: nat, gpu: nat, flags: nat, va: nat, bytes: Positive, offset: nat, handle: nat)
    | QueueCreated(pid: nat, id: nat, ringVa: nat, ringBytes: nat, readPointer: nat, writePointer: nat,
                   doorbellOffset: nat)
    | QueueUpdated(pid: nat, id: nat, ringVa: nat, ringBytes: nat)
    | QueueDestroyed(pid: nat, id: nat)
    | QueueProgressed(pid: nat, id: nat, slot: nat, doorbell: nat, completion: nat)
    | Other

  predicate Foreign(line: Line, expected: Option<nat>) {
    line.Other? || (expected.Some? && line.pid != expected.value)
  }

  // ----- What the trace says -----

  /** The allocations of the first n lines, in order. */
  function Allocations(lines: seq<Line>, n: nat, expected: Option<nat>): (s: seq<Allocation>)
    requires n <= |lines|
  {
    if n == 0 then []
    else
      var before := Allocations(lines, n - 1, expected);
      var line := lines[n - 1];
      if Foreign(line, expected) || !line.Allocated? then before
      else before + [Allocation(n, |before| + 1, line.pid, line.gpu, line.flags, line.va, line.bytes, line.offset,
                                line.handle)]
  }

  /** What line number n does to the queue with the given id. */
  function Applied(q: Option<Queue>, line: Line, n: nat, id: nat): Option<Queue> {
    if line.Other? || line.Allocated? || line.id != id then q
    else if line.QueueCreated? then
      Some(Queue(n, id, line.ringVa, line.ringBytes, line.readPointer, line.writePointer, line.doorbellOffset, true, []))
    else if q.None? then None
    else if line.QueueUpdated? then
      Some(q.value.(line := n, ringVa := line.ringVa, ringBytes := line.ringBytes))
    else if line.QueueDestroyed? then Some(q.value.(line := n, active := false))
    else
      Some(q.value.(progress := q.value.progress + [Progress(n, line.slot, line.doorbell, line.completion)]))
  }

  /** The queue with the given id after the first n lines. */
  function QueueAfter(lines: seq<Line>, n: nat, expected: Option<nat>, id: nat): (q: Option<Queue>)
    requires n <= |lines|
    ensures q.Some? ==> q.value.id == id
  {
    if n == 0 then None
    else
      var before := QueueAfter(lines, n - 1, expected, id);
      if Foreign(lines[n - 1], expected) then before else Applied(before, lines[n - 1], n, id)
  }

  function Pids(lines: seq<Line>, n: nat, expected: Option<nat>): set<nat>
    requires n <= |lines|
  {
    set i | 0 <= i < n && !Foreign(lines[i], expected) :: lines[i].pid
  }

  /** The allocation is what its line says. */
  predicate AsLogged(lines: seq<Line>, a: Allocation, expected: Option<nat>) {
    && 1 <= a.line <= |lines|
    && var line := lines[a.line - 1];
       && !Foreign(line, expected) && line.Allocated?
       && a == Allocation(a.line, a.ordinal, line.pid, line.gpu, line.flags, line.va, line.bytes, line.offset, line.handle)
  }

  ghost predicate LoggedIn(lines: seq<Line>, n: nat, expected: Option<nat>, s: seq<Allocation>) {
    && (forall k :: 0 <= k < |s| ==> s[k].ordinal == k + 1 && s[k].bytes > 0 && s[k].line <= n && AsLogged(lines, s[k], expected))
    && (forall j, k :: 0 <= j < k < |s| ==> s[j].line < s[k].line)
  }

  /** Every allocation comes from its line, numbered in order. */
  lemma {:induction false} AllocationsAreLogged(lines: seq<Line>, n: nat, expected: Option<nat>)
    requires n <= |lines|
    ensures LoggedIn(lines, n, expected, Allocations(lines, n, expected))
  {
    if n > 0 {
      AllocationsAreLogged(lines, n - 1, expected);
    }
  }

  /** And no line is missed. */
  lemma {:induction false} EveryAllocationIsListed(lines: seq<Line>, n: nat, expected: Option<nat>, i: nat)
    returns (k: nat)
    requires i < n <= |lines| && !Foreign(lines[i], expected) && lines[i].Allocated?
    ensures k < |Allocations(lines, n, expected)| && Allocations(lines, n, expected)[k].line == i + 1
  {
    if i == n - 1 {
      k := |Allocations(lines, n - 1, expected)|;
    } else {
      k := EveryAllocationIsListed(lines, n - 1, expected, i);
    }
  }

  // ----- What a queue is after its lines -----

  /** The line is about the queue with this id. */
  predicate Names(line: Line, expected: Option<nat>, id: nat) {
    !Foreign(line, expected) && !line.Allocated? && line.id == id
  }

  /** No line from m to n creates the queue. */
  ghost predicate NotCreated(lines: seq<Line>, m: nat, n: nat, expected: Option<nat>, id: nat)
    requires n <= |lines|
  {
    forall i :: m <= i < n && Names(lines[i], expected, id) ==> !lines[i].QueueCreated?
  }

  /** The queue was last created by line c. */
  ghost predicate CreatedBy(lines: seq<Line>, c: nat, n: nat, expected: Option<nat>, id: nat) {
    && c < n <= |lines| && Names(lines[c], expected, id) && lines[c].QueueCreated?
    && NotCreated(lines, c + 1, n, expected, id)
  }

  lemma {:induction false} UncreatedQueue(lines: seq<Line>, n: nat, expected: Option<nat>, id: nat)
    requires n <= |lines| && NotCreated(lines, 0, n, expected, id)
    ensures QueueAfter(lines, n, expected, id).None?
  {
    if n > 0 {
      UncreatedQueue(lines, n - 1, expected, id);
    }
  }

  /** Its pointers and doorbell are those of its creation, and it is active until a line destroys it. */
  lemma {:induction false} QueueIsLogged(lines: seq<Line>, n: nat, expected: Option<nat>, id: nat, c: nat)
    requires CreatedBy(lines, c, n, expected, id)
    ensures var q := QueueAfter(lines, n, expected, id);
            && q.Some? && q.value.readPointer == lines[c].readPointer && q.value.writePointer == lines[c].writePointer
            && q.value.doorbellOffset == lines[c].doorbellOffset
            && (q.value.active <==> forall i :: c < i < n && Names(lines[i], expected, id) ==> !lines[i].QueueDestroyed?)
  {
    if c < n - 1 {
      QueueIsLogged(lines, n - 1, expected, id, c);
      if Names(lines[n - 1], expected, id) && !lines[n - 1].QueueDestroyed? {
        assert !lines[n - 1].QueueCreated?;
      }
    }
  }

  /** Its ring is that of the last line that created or updated it. */
  lemma {:induction false} RingIsLogged(lines: seq<Line>, n: nat, expected: Option<nat>, id: nat, c: nat, u: nat)
    requires CreatedBy(lines, c, n, expected, id) && c <= u < n
    requires u == c || (Names(lines[u], expected, id) && lines[u].QueueUpdated?)
    requires forall i :: u < i < n && Names(lines[i], expected, id) ==> !lines[i].QueueUpdated?
    ensures var q := QueueAfter(lines, n, expected, id);
            q.Some? && q.value.ringVa == lines[u].ringVa && q.value.ringBytes == lines[u].ringBytes
  {
    if u < n - 1 {
      RingIsLogged(lines, n - 1, expected, id, c, u);
      if Names(lines[n - 1], expected, id) {
        assert !lines[n - 1].QueueCreated? && !lines[n - 1].QueueUpdated?;
      }
    } else if c < u {
      QueueIsLogged(lines, n - 1, expected, id, c);
    }
  }

  /** What the lines from m to n report of the queue, in order. */
  function Reported(lines: seq<Line>, m: nat, n: nat, expected: Option<nat>, id: nat): (s: seq<Progress>)
    requires n <= |lines|
  {
    if n <= m then []
    else
      var before, line := Reported(lines, m, n - 1, expected, id), lines[n - 1];
      if Names(line, expected, id) && line.QueueProgressed? then
        before + [Progress(n, line.slot, line.doorbell, line.completion)]
      else before
  }

  lemma ProgressStep(q: Queue, line: Line, n: nat, id: nat)
    requires line.Other? || line.Allocated? || line.id != id || !line.QueueCreated?
    ensures var r := Applied(Some(q), line, n, id);
            && r.Some?
            && r.value.progress
            == if line.QueueProgressed? && line.id == id then
                 q.progress + [Progress(n, line.slot, line.doorbell, line.completion)]
               else q.progress
  {
  }

  /** Its progress is what has been reported since its creation. */
  lemma {:induction false} ProgressIsLogged(lines: seq<Line>, n: nat, expected: Option<nat>, id: nat, c: nat)
    requires CreatedBy(lines, c, n, expected, id)
    ensures QueueAfter(lines, n, expected, id).Some?
    ensures QueueAfter(lines, n, expected, id).value.progress == Reported(lines, c + 1, n, expected, id)
  {
    if c < n - 1 {
      ProgressIsLogged(lines, n - 1, expected, id, c);
      if !Foreign(lines[n - 1], expected) {
        ProgressStep(QueueAfter(lines, n - 1, expected, id).value, lines[n - 1], n, id);
      }
    }
  }

  // ----- The registry -----

  datatype Registry = Registry(pid: nat, allocations: seq<Allocation>, queues: seq<Queue>)

  /** What every parsed registry satisfies. */
  ghost predicate Indexed(r: Registry) {
    && (forall k :: 0 <= k < |r.allocations| ==> r.allocations[k].ordinal == k + 1 && r.allocations[k].bytes > 0)
    && (forall j, k :: 0 <= j < k < |r.allocations| ==> r.allocations[j].line < r.allocations[k].line)
    && (forall j, k :: 0 <= j < k < |r.queues| ==> r.queues[j].id < r.queues[k].id)
  }

  /** `Registry.resolve`: among the allocations that contain the range, the newest in the trace. */
  function Newest(s: seq<Allocation>, address: int, count: int): (a: Option<Allocation>)
    ensures a.None? <==> forall k :: 0 <= k < |s| ==> !s[k].Contains(address, count)
    ensures a.Some? ==>
              && a.value in s
              && a.value.Contains(address, count)
              && forall k :: 0 <= k < |s| && s[k].Contains(address, count) ==> s[k].line <= a.value.line
  {
    if s == [] then None
    else
      var last := s[|s| - 1];
      var before := Newest(s[..|s| - 1], address, count);
      if last.Contains(address, count) && (before.None? || before.value.line < last.line) then Some(last) else before
  }

  function Resolve(r: Registry, address: int, count: int): (a: Option<Allocation>)
    ensures a.Some? <==> 0 <= address && 0 < count && address + count <= UINT64 && Newest(r.allocations, address, count).Some?
    ensures a.Some? ==> a.value in r.allocations && a.value.Contains(address, count)
  {
    if address < 0 || count <= 0 || address + count > UINT64 then None else Newest(r.allocations, address, count)
  }

  // ----- Parsing -----

  ghost predicate QueuesAfter(queues: map<nat, Queue>, lines: seq<Line>, n: nat, expected: Option<nat>)
    requires n <= |lines|
  {
    forall id :: (if id in queues then Some(queues[id]) else None) == QueueAfter(lines, n, expected, id)
  }

  lemma QueueStep(queues: map<nat, Queue>, lines: seq<Line>, n: nat, expected: Option<nat>, next: map<nat, Queue>)
    requires n < |lines| && QueuesAfter(queues, lines, n, expected) && !Foreign(lines[n], expected)
    requires lines[n].Allocated? ==> next == queues
    requires !lines[n].Allocated? ==>
               var id := lines[n].id;
               var changed := Applied(if id in queues then Some(queues[id]) else None, lines[n], n + 1, id);
               next == if changed.Some? then queues[id := changed.value] else queues
    ensures QueuesAfter(next, lines, n + 1, expected)
  {
    forall id
      ensures (if id in next then Some(next[id]) else None) == QueueAfter(lines, n + 1, expected, id)
    {
      assert (if id in queues then Some(queues[id]) else None) == QueueAfter(lines, n, expected, id);
    }
  }

  lemma {:induction false} LeastOf(ids: set<nat>) returns (least: nat)
    requires ids != {}
    ensures least in ids && forall id :: id in ids ==> least <= id
  {
    least :| least in ids;
    var rest := ids - {least};
    if rest != {} {
      var other := LeastOf(rest);
      var one := least;
      least := if one <= other then one else other;
      forall id | id in ids
        ensures least <= id
      {
        assert id == one || id in rest;
      }
    } else {
      forall id | id in ids
        ensures id == least
      {
        assert id !in rest;
      }
    }
  }

  ghost predicate Sorted(queues: map<nat, Queue>, left: set<nat>, sorted: seq<Queue>) {
    && (forall j, k :: 0 <= j < k < |sorted| ==> sorted[j].id < sorted[k].id)
    && (forall q :: q in sorted <==> q.id in queues && q.id !in left && queues[q.id] == q)
    && (forall k, id :: 0 <= k < |sorted| && id in left ==> sorted[k].id < id)
  }

  lemma SortedStep(queues: map<nat, Queue>, left: set<nat>, sorted: seq<Queue>, id: nat)
    requires Sorted(queues, left, sorted) && left <= queues.Keys && id in left
    requires queues[id].id == id && forall other :: other in left ==> id <= other
    ensures Sorted(queues, left - {id}, sorted + [queues[id]])
  {
    var longer := sorted + [queues[id]];
    forall q: Queue
      ensures q in longer <==> q.id in queues && q.id !in left - {id} && queues[q.id] == q
    {
      assert q in longer <==> q in sorted || q == queues[id];
    }
  }

  /** The queues in the order of their ids. */
  method SortedById(queues: map<nat, Queue>) returns (sorted: seq<Queue>)
    requires forall id :: id in queues ==> queues[id].id == id
    ensures forall j, k :: 0 <= j < k < |sorted| ==> sorted[j].id < sorted[k].id
    ensures forall q :: q in sorted <==> q.id in queues && queues[q.id] == q
  {
    sorted := [];
    var left := queues.Keys;
    while left != {}
      invariant left <= queues.Keys
      invariant Sorted(queues, left, sorted)
      decreases left
    {
      ghost var least := LeastOf(left);
      assert least in left && forall other :: other in left ==> least <= other;
      var id :| id in left && forall other :: other in left ==> id <= other;
      SortedStep(queues, left, sorted, id);
      sorted := sorted + [queues[id]];
      left := left - {id};
    }
  }

  lemma SortedQueues(queues: map<nat, Queue>, lines: seq<Line>, expected: Option<nat>, sorted: seq<Queue>)
    requires QueuesAfter(queues, lines, |lines|, expected)
    requires forall q :: q in sorted <==> q.id in queues && queues[q.id] == q
    ensures forall q :: q in sorted <==> QueueAfter(lines, |lines|, expected, q.id) == Some(q)
  {
    forall q: Queue
      ensures q in sorted <==> QueueAfter(lines, |lines|, expected, q.id) == Some(q)
    {
      assert (if q.id in queues then Some(queues[q.id]) else None) == QueueAfter(lines, |lines|, expected, q.id);
    }
  }

  lemma AnyQueue(queues: map<nat, Queue>, lines: seq<Line>, expected: Option<nat>)
    requires QueuesAfter(queues, lines, |lines|, expected)
    ensures queues != map[] <==> exists id :: QueueAfter(lines, |lines|, expected, id).Some?
    ensures forall id :: id in queues ==> queues[id].id == id
  {
    forall id: nat
      ensures id in queues <==> QueueAfter(lines, |lines|, expected, id).Some?
      ensures id in queues ==> queues[id].id == id
    {
      assert (if id in queues then Some(queues[id]) else None) == QueueAfter(lines, |lines|, expected, id);
    }
    if queues != map[] {
      var id :| id in queues;
      assert QueueAfter(lines, |lines|, expected, id).Some?;
    }
    if id: nat :| QueueAfter(lines, |lines|, expected, id).Some? {
      assert id in queues;
    }
  }

  /** The four queue branches of the parsing loop. */
  method ObserveQueue(queues: map<nat, Queue>, line: Line, n: nat) returns (next: map<nat, Queue>)
    requires !line.Other? && !line.Allocated?
    ensures var changed := Applied(if line.id in queues then Some(queues[line.id]) else None, line, n, line.id);
            next == if changed.Some? then queues[line.id := changed.value] else queues
  {
    next := queues;
    match line {
      case QueueCreated(_, id, ringVa, ringBytes, readPointer, writePointer, doorbellOffset) =>
        next := next[id := Queue(n, id, ringVa, ringBytes, readPointer, writePointer, doorbellOffset, true, [])];
      case QueueUpdated(_, id, ringVa, ringBytes) =>
        if id in next {
          next := next[id := next[id].(line := n, ringVa := ringVa, ringBytes := ringBytes)];
        }
      case QueueDestroyed(_, id) =>
        if id in next {
          next := next[id := next[id].(line := n, active := false)];
        }
      case QueueProgressed(_, id, slot, doorbell, completion) =>
        if id in next {
          var progress := next[id].progress + [Progress(n, slot, doorbell, completion)];
          next := next[id := next[id].(progress := progress)];
        }
    }
  }

  lemma PidsStep(lines: seq<Line>, n: nat, expected: Option<nat>)
    requires n < |lines|
    ensures Pids(lines, n + 1, expected)
         == Pids(lines, n, expected) + (if Foreign(lines[n], expected) then {} else {lines[n].pid})
  {
  }

  /** The loop of `parse_registry`. */
  method ReadTrace(lines: seq<Line>, expected: Option<nat>)
    returns (allocations: seq<Allocation>, queues: map<nat, Queue>, pids: set<nat>)
    ensures allocations == Allocations(lines, |lines|, expected)
    ensures QueuesAfter(queues, lines, |lines|, expected)
    ensures pids == Pids(lines, |lines|, expected)
  {
    allocations, queues, pids := [], map[], {};
    var ordinal := 0;
    var n := 0;
    while n < |lines|
      invariant n <= |lines| && ordinal == |allocations|
      invariant allocations == Allocations(lines, n, expected)
      invariant QueuesAfter(queues, lines, n, expected)
      invariant pids == Pids(lines, n, expected)
    {
      var line := lines[n];
      PidsStep(lines, n, expected);
      if !Foreign(line, expected) {
        pids := pids + {line.pid};
        if line.Allocated? {
          ordinal := ordinal + 1;
          allocations := allocations + [Allocation(n + 1, ordinal, line.pid, line.gpu, line.flags, line.va, line.bytes,
                                                   line.offset, line.handle)];
          QueueStep(queues, lines, n, expected, queues);
        } else {
          var next := ObserveQueue(queues, line, n + 1);
          QueueStep(queues, lines, n, expected, next);
          queues := next;
        }
      }
      n := n + 1;
    }
  }

  /** The registry is what the trace says. */
  ghost predicate Describes(r: Registry, lines: seq<Line>, expected: Option<nat>) {
    && Pids(lines, |lines|, expected) == {r.pid}
    && r.allocations == Allocations(lines, |lines|, expected)
    && forall q :: q in r.queues <==> QueueAfter(lines, |lines|, expected, q.id) == Some(q)
  }

  /** `parse_registry`, from the decoded lines on. */
  method ParseRegistry(lines: seq<Line>, expected: Option<nat>) returns (r: Result<Registry, string>)
    ensures r.Success? <==>
              && Allocations(lines, |lines|, expected) != []
              && (exists id :: QueueAfter(lines, |lines|, expected, id).Some?)
              && |Pids(lines, |lines|, expected)| == 1
    ensures r.Success? ==>
              && Indexed(r.value)
              && Describes(r.value, lines, expected)
              && (expected.Some? ==> r.value.pid == expected.value)
  {
    var allocations, queues, pids := ReadTrace(lines, expected);
    AnyQueue(queues, lines, expected);
    if allocations == [] {
      return Failure("no successful KMT allocations");
    }
    if queues == map[] {
      return Failure("no successful KMT queue creation");
    }
    if |pids| != 1 {
      return Failure("mixed KMT process identities");
    }
    var pid :| pid in pids;
    assert pids == {pid} by {
      assert |pids - {pid}| == 0;
    }
    if expected.Some? && pid != expected.value {
      assert false;
    }
    AllocationsAreLogged(lines, |lines|, expected);
    var sorted := SortedById(queues);
    SortedQueues(queues, lines, expected, sorted);
    r := Success(Registry(pid, allocations, sorted));
  }

  // ----- Why the newest allocation is the owner -----

  /** What really happened: the trace shows a `Freed` only as a line without an address. */
  datatype Event =
    | Logged(line: Line)
    | Freed(allocation: nat)

  /** The numbers of the events whose mapping is live after the first n events. */
  function Live(history: seq<Event>, n: nat): (live: set<nat>)
    requires n <= |history|
    ensures forall i :: i in live ==> i < n && history[i].Logged? && history[i].line.Allocated?
  {
    if n == 0 then {}
    else
      var before := Live(history, n - 1);
      match history[n - 1]
      case Freed(i) => before - {i}
      case Logged(line) => if line.Allocated? then before + {n - 1} else before
  }

  predicate Overlap(a: Line, b: Line)
    requires a.Allocated? && b.Allocated?
  {
    a.pid == b.pid && a.va < b.va + b.bytes && b.va < a.va + a.bytes
  }

  /** The kernel model rejects a mapping that overlaps a live one of the same process. */
  ghost predicate NoOverlap(history: seq<Event>) {
    forall n, i :: 0 <= n < |history| && history[n].Logged? && history[n].line.Allocated? && i in Live(history, n) ==>
      !Overlap(history[i].line, history[n].line)
  }

  function Trace(history: seq<Event>): (lines: seq<Line>)
    ensures |lines| == |history|
    ensures forall i :: 0 <= i < |lines| ==> lines[i] == if history[i].Logged? then history[i].line else Other
  {
    seq(|history|, i requires 0 <= i < |history| => if history[i].Logged? then history[i].line else Other)
  }

  lemma {:induction false} LiveSinceMapped(history: seq<Event>, i: nat, m: nat, n: nat)
    requires i < m <= n <= |history| && i in Live(history, n)
    ensures i in Live(history, m)
    decreases n
  {
    if m < n {
      LiveSinceMapped(history, i, m, n - 1);
    }
  }

  /** The allocation of process p that holds the range right now. */
  predicate Owns(history: seq<Event>, i: nat, pid: nat, address: int, count: int) {
    && i in Live(history, |history|)
    && history[i].line.pid == pid
    && count > 0 && history[i].line.va <= address
    && address + count <= history[i].line.va + history[i].line.bytes
  }

  lemma OwnerIsListed(lines: seq<Line>, pid: nat, i: nat, address: int, count: int) returns (a: Allocation)
    requires i < |lines| && lines[i].Allocated? && lines[i].pid == pid
    requires count > 0 && lines[i].va <= address && address + count <= lines[i].va + lines[i].bytes
    ensures a in Allocations(lines, |lines|, Some(pid)) && a.line == i + 1 && a.Contains(address, count)
  {
    AllocationsAreLogged(lines, |lines|, Some(pid));
    var k := EveryAllocationIsListed(lines, |lines|, Some(pid), i);
    a := Allocations(lines, |lines|, Some(pid))[k];
    assert AsLogged(lines, a, Some(pid));
  }

  lemma ListedIsLogged(lines: seq<Line>, pid: nat, a: Allocation)
    requires a in Allocations(lines, |lines|, Some(pid))
    ensures AsLogged(lines, a, Some(pid))
  {
    AllocationsAreLogged(lines, |lines|, Some(pid));
  }

  lemma NoLaterMappingHasIt(history: seq<Event>, i: nat, m: nat, pid: nat, address: int, count: int)
    requires NoOverlap(history) && Owns(history, i, pid, address, count)
    requires m < |history| && history[m].Logged? && history[m].line.Allocated? && history[m].line.pid == pid
    requires history[m].line.va <= address && address + count <= history[m].line.va + history[m].line.bytes
    ensures m <= i
  {
    if m > i {
      LiveSinceMapped(history, i, m, |history|);
      assert Overlap(history[i].line, history[m].line);
    }
  }

  lemma OwnerIsResolved(s: seq<Allocation>, owner: Allocation, address: int, count: int)
    requires owner in s && owner.Contains(address, count)
    ensures Newest(s, address, count).Some? && owner.line <= Newest(s, address, count).value.line
  {
    var k :| 0 <= k < |s| && s[k] == owner;
    assert s[k].Contains(address, count);
  }

  lemma NewestIsOwner(history: seq<Event>, pid: nat, i: nat, newest: Allocation, address: int, count: int)
    requires NoOverlap(history) && Owns(history, i, pid, address, count)
    requires newest in Allocations(Trace(history), |history|, Some(pid))
    requires newest.Contains(address, count) && newest.line >= i + 1
    ensures newest.line == i + 1
  {
    ListedIsLogged(Trace(history), pid, newest);
    NoLaterMappingHasIt(history, i, newest.line - 1, pid, address, count);
  }

  /**
   The registry sees no free, yet it names the live owner: if some live
   allocation of the process contains the range, `resolve` returns that one.
   */
  lemma ResolveFindsTheLiveOwner(history: seq<Event>, r: Registry, i: nat, address: int, count: int)
    requires NoOverlap(history)
    requires r.allocations == Allocations(Trace(history), |history|, Some(r.pid))
    requires address >= 0 && address + count <= UINT64
    requires Owns(history, i, r.pid, address, count)
    ensures Resolve(r, address, count).Some?
    ensures Resolve(r, address, count).value.line == i + 1
  {
    var owner := OwnerIsListed(Trace(history), r.pid, i, address, count);
    OwnerIsResolved(r.allocations, owner, address, count);
    NewestIsOwner(history, r.pid, i, Resolve(r, address, count).value, address, count);
  }

  /** Conversely, an answer is the live owner only if there is one: `resolve` cannot see that a mapping is gone. */
  lemma ResolvedIsLiveExactly(history: seq<Event>, r: Registry, address: int, count: int)
    requires NoOverlap(history)
    requires r.allocations == Allocations(Trace(history), |history|, Some(r.pid))
    requires Resolve(r, address, count).Some?
    ensures Resolve(r, address, count).value.line > 0
    ensures Owns(history, Resolve(r, address, count).value.line - 1, r.pid, address, count)
       <==> exists i :: Owns(history, i, r.pid, address, count)
  {
    ListedIsLogged(Trace(history), r.pid, Resolve(r, address, count).value);
    if i: nat :| Owns(history, i, r.pid, address, count) {
      ResolveFindsTheLiveOwner(history, r, i, address, count);
    }
  }

  /** A freed mapping is still resolved. */
  lemma FreedMappingIsStillResolved(pid: nat, va: nat, bytes: Positive)
    requires va + bytes <= UINT64
    ensures var history := [Logged(Allocated(pid, 0, 0, va, bytes, 0, 1)), Freed(0)];
            && NoOverlap(history) && Live(history, 2) == {}
            && var r := Registry(pid, Allocations(Trace(history), 2, Some(pid)), []);
               Resolve(r, va, bytes).Some?
  {
    var history := [Logged(Allocated(pid, 0, 0, va, bytes, 0, 1)), Freed(0)];
    var lines := Trace(history);
    assert lines == [Allocated(pid, 0, 0, va, bytes, 0, 1), Other];
    assert Live(history, 0) == {} && Live(history, 1) == {0} && Live(history, 2) == {};
    var a := Allocation(1, 1, pid, 0, 0, va, bytes, 0, 1);
    assert Allocations(lines, 0, Some(pid)) == [];
    assert Allocations(lines, 1, Some(pid)) == [a];
    assert Allocations(lines, 2, Some(pid)) == [a];
    assert [a][0].Contains(va, bytes);
  }
}
