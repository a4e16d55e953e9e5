/** The frontiers of a queue in captured memory, and the ring slots between them. */
module AqlQueue {
  import opened Bytes
  import opened KmtRegistry
  import opened Wrappers

  const PACKET_BYTES: nat := 64
  const DOORBELL_INITIAL: nat := UINT64 - 1
  const COMPLETION_FROM_DOORBELL: nat := 1024

  /** A file read by offset; some offsets may be unreadable or past its end. */
  type Source = map<nat, byte>

  datatype Memory = Memory(registry: Registry, backing: Source, process: Option<Source>)

  /** `ByteSource.read_at`. */
  function ReadAt(source: Source, offset: nat, count: nat): (bytes: Option<seq<byte>>)
    ensures bytes.Some? ==> |bytes.value| == count && forall i :: 0 <= i < count ==>
              offset + i in source && bytes.value[i] == source[offset + i]
  {
    if count == 0 || offset + count > UINT64 then None
    else if forall i :: offset <= i < offset + count ==> i in source then
      Some(seq(count, i requires 0 <= i < count && offset + i in source => source[offset + i]))
    else None
  }

  /** The source of an allocation, and where in it the allocation starts. */
  function SourceOf(m: Memory, a: Allocation): Option<Source> {
    if a.UserPointer() then m.process else Some(m.backing)
  }

  /** `GPUMemory.read` within one allocation. */
  function ReadIn(m: Memory, a: Allocation, address: nat, count: nat): (bytes: Option<seq<byte>>)
    requires a.Contains(address, count)
    ensures bytes.Some? ==> |bytes.value| == count
  {
    var source := SourceOf(m, a);
    if source.None? then None else ReadAt(source.value, a.offset + (address - a.va), count)
  }

  /** `GPUMemory.read`. */
  function Read(m: Memory, address: int, count: int): (r: Option<(seq<byte>, Allocation)>)
    ensures r.Some? ==>
              && Resolve(m.registry, address, count) == Some(r.value.1)
              && |r.value.0| == count
              && ReadIn(m, r.value.1, address, count) == Some(r.value.0)
  {
    var a := Resolve(m.registry, address, count);
    if a.None? then None
    else
      var bytes := ReadIn(m, a.value, address, count);
      if bytes.None? then None else Some((bytes.value, a.value))
  }

  // ----- Frontiers -----

  datatype Frontiers = Frontiers(
    producerRead: nat,
    producerReserved: nat,
    doorbell: nat,
    published: nat,
    completion: nat)

  function Word(bytes: seq<byte>): (n: nat)
    requires |bytes| == 8
    ensures n < UINT64
  {
    Spans();
    LittleEndian(bytes)
  }

  /** Memory as it is when each of the four words is read. */
  datatype Words = Words(read: Memory, write: Memory, doorbell: Memory, completion: Memory)

  /** `queue_frontiers`. */
  function QueueFrontiers(m: Words, q: Queue): (r: Result<Frontiers, string>) {
    CheckRead(q.ringBytes, Read(m.read, q.readPointer, 8), Read(m.write, q.writePointer, 8),
              ReadAt(m.doorbell.backing, q.doorbellOffset, 8),
              ReadAt(m.completion.backing, q.doorbellOffset + COMPLETION_FROM_DOORBELL, 8))
  }

  function CheckRead(ringBytes: nat, read: Option<(seq<byte>, Allocation)>, write: Option<(seq<byte>, Allocation)>,
                     doorbell: Option<seq<byte>>, completion: Option<seq<byte>>): (r: Result<Frontiers, string>)
    requires (read.Some? ==> |read.value.0| == 8) && (write.Some? ==> |write.value.0| == 8)
    requires (doorbell.Some? ==> |doorbell.value| == 8) && (completion.Some? ==> |completion.value| == 8)
  {
    if read.None? || write.None? then Failure("queue indices are unreadable")
    else Check(ringBytes, Word(read.value.0), Word(write.value.0), doorbell, completion)
  }

  function Check(ringBytes: nat, read: nat, write: nat, doorbell: Option<seq<byte>>, completion: Option<seq<byte>>):
    (r: Result<Frontiers, string>)
    requires doorbell.Some? ==> |doorbell.value| == 8
    requires completion.Some? ==> |completion.value| == 8
  {
    var depth := ringBytes / PACKET_BYTES;
    :- Need(ringBytes >= 4096 && ringBytes % PACKET_BYTES == 0, "queue ring geometry is invalid");
    :- Need(write >= read, "reserved write index regressed behind the read index");
    :- Need(write - read <= depth, "reserved range exceeds the ring depth");
    :- Need(doorbell.Some? && completion.Some?, "doorbell page is unreadable");
    Window(depth, read, write, Word(doorbell.value), Word(completion.value))
  }

  /** The checks on the published and the completion frontier. */
  function Window(depth: nat, read: nat, write: nat, rung: nat, completed: nat): (r: Result<Frontiers, string>)
    requires rung < UINT64
  {
    var published := if rung == DOORBELL_INITIAL then 0 else rung + 1;
    if published >= UINT64 then Failure("published frontier overflows")
    else if write < published then Failure("doorbell exceeds the reserved write index")
    else if completed > published then Failure("completion exceeds the published frontier")
    else if read > completed then Failure("read index exceeds the completion")
    else if published - completed > depth then Failure("pending range exceeds the ring depth")
    else Success(Frontiers(read, write, rung, published, completed))
  }

  predicate InWindow(f: Frontiers, ringBytes: nat) {
    && ringBytes >= 4096 && ringBytes % PACKET_BYTES == 0
    && f.producerRead <= f.completion <= f.published <= f.producerReserved
    && f.producerReserved - f.producerRead <= ringBytes / PACKET_BYTES
  }

  /**
   The checks accept exactly the ordered frontiers that fit the ring; the
   published frontier cannot overflow and needs no bound of its own.
   */
  lemma AcceptedExactlyInWindow(ringBytes: nat, read: nat, write: nat, doorbell: seq<byte>, completion: seq<byte>)
    requires |doorbell| == 8 && |completion| == 8
    ensures var published := if Word(doorbell) == DOORBELL_INITIAL then 0 else Word(doorbell) + 1;
            var f := Frontiers(read, write, Word(doorbell), published, Word(completion));
            && published < UINT64
            && Check(ringBytes, read, write, Some(doorbell), Some(completion)).Success? == InWindow(f, ringBytes)
            && (InWindow(f, ringBytes) ==> Check(ringBytes, read, write, Some(doorbell), Some(completion)) == Success(f))
  {
  }

  lemma FrontiersInWindow(m: Words, q: Queue)
    requires QueueFrontiers(m, q).Success?
    ensures InWindow(QueueFrontiers(m, q).value, q.ringBytes)
  {
  }

  // ----- The ring -----

  function SlotVa(ringVa: nat, ringBytes: nat, index: nat): nat
    requires ringBytes >= PACKET_BYTES
  {
    ringVa + index % (ringBytes / PACKET_BYTES) * PACKET_BYTES
  }

  lemma {:induction false} AtLeastOne(depth: int, n: int)
    requires depth > 0 && n >= 1
    ensures depth * n >= depth
  {
    if n > 1 {
      AtLeastOne(depth, n - 1);
      assert depth * n == depth * (n - 1) + depth;
    }
  }

  lemma SameSlot(i: nat, j: nat, depth: nat)
    requires depth > 0 && i <= j <= i + depth
    ensures i % depth == j % depth <==> i == j || j == i + depth
  {
    var p, q := i / depth, j / depth;
    assert i == depth * p + i % depth && j == depth * q + j % depth;
    var turns := q - p;
    assert j - i == depth * turns + (j % depth - i % depth);
    AtLeastOne(depth, if turns >= 2 then turns - 1 else 1);
    assert depth * turns == depth * (turns - 1) + depth;
  }

  /**
   Whatever frontiers are accepted, all reserved packets, hence all published
   pending ones, lie in pairwise disjoint 64-byte slots inside the ring.
   */
  lemma PendingSlotsAreDistinct(m: Words, q: Queue, i: nat, j: nat)
    requires QueueFrontiers(m, q).Success?
    requires var f := QueueFrontiers(m, q).value; f.producerRead <= i < j < f.producerReserved
    ensures q.ringVa <= SlotVa(q.ringVa, q.ringBytes, i)
    ensures SlotVa(q.ringVa, q.ringBytes, i) + PACKET_BYTES <= q.ringVa + q.ringBytes
    ensures q.ringVa <= SlotVa(q.ringVa, q.ringBytes, j)
    ensures SlotVa(q.ringVa, q.ringBytes, j) + PACKET_BYTES <= q.ringVa + q.ringBytes
    ensures || SlotVa(q.ringVa, q.ringBytes, i) + PACKET_BYTES <= SlotVa(q.ringVa, q.ringBytes, j)
            || SlotVa(q.ringVa, q.ringBytes, j) + PACKET_BYTES <= SlotVa(q.ringVa, q.ringBytes, i)
  {
    FrontiersInWindow(m, q);
    SameSlot(i, j, q.ringBytes / PACKET_BYTES);
  }

  /** The published frontier itself shares the head's slot exactly when the ring is full. */
  lemma FrontierAliasesHeadExactlyWhenFull(m: Words, q: Queue)
    requires QueueFrontiers(m, q).Success?
    requires var f := QueueFrontiers(m, q).value; f.completion < f.published
    ensures var f := QueueFrontiers(m, q).value;
            SlotVa(q.ringVa, q.ringBytes, f.published) == SlotVa(q.ringVa, q.ringBytes, f.completion)
            <==> f.published - f.completion == q.ringBytes / PACKET_BYTES
  {
    FrontiersInWindow(m, q);
    var f := QueueFrontiers(m, q).value;
    SameSlot(f.completion, f.published, q.ringBytes / PACKET_BYTES);
  }

  // ----- Selection -----

  datatype Choice = Choice(queue: Queue, frontiers: Frontiers)

  /** How the frontiers of each queue read when its turn comes. */
  type Reading = Queue -> Result<Frontiers, string>

  function ReadingOf(at: Queue -> Words): Reading {
    q => QueueFrontiers(at(q), q)
  }

  predicate Considered(q: Queue, requested: Option<nat>) {
    q.active && (requested.None? || q.id == requested.value)
  }

  /** A considered queue with a published packet that is not retired. */
  predicate Pending(read: Reading, q: Queue, requested: Option<nat>) {
    && Considered(q, requested)
    && read(q).Success? && read(q).value.published > read(q).value.completion
  }

  /** None of the first n queues that are considered has unsound frontiers. */
  ghost predicate AllSound(read: Reading, queues: seq<Queue>, n: nat, requested: Option<nat>)
    requires n <= |queues|
  {
    forall k :: 0 <= k < n && Considered(queues[k], requested) ==> read(queues[k]).Success?
  }

  ghost predicate OnlyPending(read: Reading, queues: seq<Queue>, q: Queue, requested: Option<nat>) {
    && q in queues && Pending(read, q, requested)
    && forall p :: p in queues && Pending(read, p, requested) ==> p == q
  }

  /** The pending ones among the first n queues, in order. */
  function Candidates(read: Reading, queues: seq<Queue>, n: nat, requested: Option<nat>): (s: seq<Choice>)
    requires n <= |queues|
  {
    if n == 0 then []
    else
      var before := Candidates(read, queues, n - 1, requested);
      var last := queues[n - 1];
      if Pending(read, last, requested) then before + [Choice(last, read(last).value)] else before
  }

  ghost predicate Increasing(queues: seq<Queue>) {
    forall j, k :: 0 <= j < k < |queues| ==> queues[j].id < queues[k].id
  }

  lemma {:induction false} CandidateIs(read: Reading, queues: seq<Queue>, n: nat, requested: Option<nat>, c: nat)
    returns (k: nat)
    requires n <= |queues| && c < |Candidates(read, queues, n, requested)|
    ensures k < n && queues[k] == Candidates(read, queues, n, requested)[c].queue && Pending(read, queues[k], requested)
    ensures read(queues[k]) == Success(Candidates(read, queues, n, requested)[c].frontiers)
  {
    if c < |Candidates(read, queues, n - 1, requested)| {
      k := CandidateIs(read, queues, n - 1, requested, c);
    } else {
      k := n - 1;
    }
  }

  lemma {:induction false} CandidatesDiffer(read: Reading, queues: seq<Queue>, n: nat, requested: Option<nat>, c: nat, d: nat)
    requires Increasing(queues) && n <= |queues| && c < d < |Candidates(read, queues, n, requested)|
    ensures Candidates(read, queues, n, requested)[c].queue.id < Candidates(read, queues, n, requested)[d].queue.id
  {
    if d < |Candidates(read, queues, n - 1, requested)| {
      CandidatesDiffer(read, queues, n - 1, requested, c, d);
    } else {
      var k := CandidateIs(read, queues, n - 1, requested, c);
    }
  }

  lemma {:induction false} CandidateFound(read: Reading, queues: seq<Queue>, n: nat, requested: Option<nat>, k: nat)
    returns (c: nat)
    requires k < n <= |queues| && Pending(read, queues[k], requested)
    ensures c < |Candidates(read, queues, n, requested)| && Candidates(read, queues, n, requested)[c].queue == queues[k]
  {
    if k == n - 1 {
      c := |Candidates(read, queues, n - 1, requested)|;
    } else {
      c := CandidateFound(read, queues, n - 1, requested, k);
    }
  }

  lemma OneCandidate(read: Reading, queues: seq<Queue>, requested: Option<nat>, s: seq<Choice>)
    requires Increasing(queues) && s == Candidates(read, queues, |queues|, requested)
    ensures |s| == 1 ==> OnlyPending(read, queues, s[0].queue, requested)
    ensures |s| != 1 ==> !exists q :: OnlyPending(read, queues, q, requested)
    ensures requested.Some? ==> |s| <= 1
    ensures s != [] ==> read(s[0].queue) == Success(s[0].frontiers)
  {
    if s != [] {
      var k := CandidateIs(read, queues, |queues|, requested, 0);
    }
    if |s| >= 2 {
      var k := CandidateIs(read, queues, |queues|, requested, 1);
      CandidatesDiffer(read, queues, |queues|, requested, 0, 1);
    }
    forall p | p in queues && Pending(read, p, requested)
      ensures |s| == 1 ==> p == s[0].queue
      ensures s != []
    {
      var k :| 0 <= k < |queues| && queues[k] == p;
      var c := CandidateFound(read, queues, |queues|, requested, k);
    }
  }

  /**
   `select_queue`: it succeeds exactly when every considered queue has sound
   frontiers and exactly one of them has a pending packet, and returns that one.
   */
  method SelectQueue(read: Reading, queues: seq<Queue>, requested: Option<nat>) returns (r: Result<Choice, string>)
    requires Increasing(queues)
    ensures r.Success? <==>
              && AllSound(read, queues, |queues|, requested)
              && exists q :: OnlyPending(read, queues, q, requested)
    ensures r.Success? ==>
              && OnlyPending(read, queues, r.value.queue, requested)
              && read(r.value.queue) == Success(r.value.frontiers)
  {
    var candidates: seq<Choice> := [];
    for n := 0 to |queues|
      invariant AllSound(read, queues, n, requested)
      invariant candidates == Candidates(read, queues, n, requested)
    {
      var queue := queues[n];
      if Considered(queue, requested) {
        var frontiers := read(queue);
        if frontiers.Failure? {
          return Failure(frontiers.error);
        }
        if frontiers.value.published > frontiers.value.completion {
          candidates := candidates + [Choice(queue, frontiers.value)];
        }
      }
    }
    OneCandidate(read, queues, requested, candidates);
    if candidates == [] {
      return Failure("no pending AQL packet");
    }
    if requested.None? && |candidates| != 1 {
      return Failure("multiple queues have pending packets");
    }
    r := Success(candidates[0]);
  }
}
