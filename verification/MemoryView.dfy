/** GPU memory byte by byte: which allocation holds a range, and which byte of which store it shows. */
module MemoryView {
  import opened AqlQueue
  import opened Bytes
  import opened KmtRegistry
  import opened Wrappers

  /** The newest allocation that has the whole range. */
  ghost predicate HoldsRange(allocations: seq<Allocation>, a: Allocation, va: nat, count: nat) {
    && a in allocations && a.va <= va && va + count <= a.va + a.bytes
    && forall b :: b in allocations && b.va <= va && va + count <= b.va + b.bytes ==> b.line <= a.line
  }

  /** Memory of the process itself is read there, all other memory in the backing file. */
  function StoreOf(m: Memory, a: Allocation): Option<Source> {
    if a.flags / 4 % 2 == 1 then m.process else Some(m.backing)
  }

  /** The bytes of a store from the given offset on. */
  predicate At(store: Source, offset: nat, bytes: seq<byte>) {
    && bytes != [] && offset + |bytes| <= 0x1_0000_0000_0000_0000
    && forall i :: 0 <= i < |bytes| ==> offset + i in store && store[offset + i] == bytes[i]
  }

  /** Memory shows these bytes at this address, in this allocation. */
  ghost predicate Sees(m: Memory, va: nat, bytes: seq<byte>, a: Allocation) {
    && va + |bytes| <= 0x1_0000_0000_0000_0000 && HoldsRange(m.registry.allocations, a, va, |bytes|)
    && StoreOf(m, a).Some? && At(StoreOf(m, a).value, a.offset + (va - a.va), bytes)
  }

  lemma ReadAtExactly(store: Source, offset: nat, count: nat, bytes: seq<byte>)
    ensures ReadAt(store, offset, count) == Some(bytes) <==> |bytes| == count && At(store, offset, bytes)
  {
    if ReadAt(store, offset, count) == Some(bytes) {
      assert bytes != [];
    }
    if |bytes| == count && At(store, offset, bytes) {
      forall k | offset <= k < offset + count
        ensures k in store
      {
        var i := k - offset;
        assert offset + i in store && store[offset + i] == bytes[i];
      }
      assert ReadAt(store, offset, count).value == bytes;
    }
  }

  lemma ResolveExactly(r: Registry, va: nat, count: nat, a: Allocation)
    requires Indexed(r) && count > 0
    ensures Resolve(r, va, count) == Some(a) <==> va + count <= 0x1_0000_0000_0000_0000 && HoldsRange(r.allocations, a, va, count)
  {
    if HoldsRange(r.allocations, a, va, count) {
      assert a.Contains(va, count);
      var k :| 0 <= k < |r.allocations| && r.allocations[k] == a;
      var found := Newest(r.allocations, va, count);
      assert found.Some?;
      var j :| 0 <= j < |r.allocations| && r.allocations[j] == found.value;
      assert r.allocations[k].Contains(va, count) && r.allocations[k].line <= found.value.line;
      assert found.value.va <= va && va + count <= found.value.va + found.value.bytes;
    }
    if Resolve(r, va, count) == Some(a) {
      forall b | b in r.allocations && b.va <= va && va + count <= b.va + b.bytes
        ensures b.line <= a.line
      {
        assert b.Contains(va, count);
        var k :| 0 <= k < |r.allocations| && r.allocations[k] == b;
      }
    }
  }

  /** `GPUMemory.read` returns exactly what memory shows. */
  lemma ReadExactly(m: Memory, va: nat, count: nat, bytes: seq<byte>, a: Allocation)
    requires Indexed(m.registry)
    ensures Read(m, va, count) == Some((bytes, a)) <==> |bytes| == count && count > 0 && Sees(m, va, bytes, a)
  {
    if count > 0 {
      ResolveExactly(m.registry, va, count, a);
      if Resolve(m.registry, va, count) == Some(a) {
        assert StoreOf(m, a) == SourceOf(m, a);
        if StoreOf(m, a).Some? {
          ReadAtExactly(StoreOf(m, a).value, a.offset + (va - a.va), count, bytes);
        }
      }
    }
  }

  // ----- Frontiers -----

  /** The four words, where the queue has them. */
  ghost predicate WordsAt(m: Words, q: Queue, read: seq<byte>, write: seq<byte>, doorbell: seq<byte>, completion: seq<byte>) {
    && |read| == |write| == |doorbell| == |completion| == 8
    && (exists a :: Sees(m.read, q.readPointer, read, a)) && (exists a :: Sees(m.write, q.writePointer, write, a))
    && At(m.doorbell.backing, q.doorbellOffset, doorbell)
    && At(m.completion.backing, q.doorbellOffset + 1024, completion)
  }

  /** What they say; a doorbell that was never rung holds the largest number. */
  function FrontiersOf(read: seq<byte>, write: seq<byte>, doorbell: seq<byte>, completion: seq<byte>): Frontiers {
    var rung := LittleEndian(doorbell);
    Frontiers(LittleEndian(read), LittleEndian(write), rung, if rung == 0xFFFF_FFFF_FFFF_FFFF then 0 else rung + 1,
              LittleEndian(completion))
  }

  /** They are in order, and what is reserved fits a ring of whole packets. */
  predicate FitsRing(f: Frontiers, ringBytes: nat) {
    && ringBytes >= 4096 && ringBytes % 64 == 0
    && f.producerRead <= f.completion <= f.published <= f.producerReserved
    && 64 * (f.producerReserved - f.producerRead) <= ringBytes
  }

  ghost predicate Frontier(m: Words, q: Queue, f: Frontiers) {
    exists read, write, doorbell, completion ::
      && WordsAt(m, q, read, write, doorbell, completion)
      && f == FrontiersOf(read, write, doorbell, completion)
  }

  lemma Indexes(m: Memory, va: nat) returns (bytes: seq<byte>)
    requires Indexed(m.registry)
    ensures Read(m, va, 8).Some? <==> exists b, a :: |b| == 8 && Sees(m, va, b, a)
    ensures Read(m, va, 8).Some? ==> |bytes| == 8 && Read(m, va, 8).value.0 == bytes
    ensures forall b, a :: |b| == 8 && Sees(m, va, b, a) ==> b == bytes
  {
    bytes := [];
    if Read(m, va, 8).Some? {
      var found := Read(m, va, 8).value;
      bytes := found.0;
      ReadExactly(m, va, 8, found.0, found.1);
    }
    forall b, a | |b| == 8 && Sees(m, va, b, a)
      ensures Read(m, va, 8) == Some((b, a))
    {
      ReadExactly(m, va, 8, b, a);
    }
  }

  lemma BackingWord(store: Source, offset: nat) returns (bytes: seq<byte>)
    ensures ReadAt(store, offset, 8).Some? ==> ReadAt(store, offset, 8) == Some(bytes) && |bytes| == 8 && At(store, offset, bytes)
    ensures forall b :: |b| == 8 && At(store, offset, b) ==> ReadAt(store, offset, 8) == Some(b)
  {
    bytes := if ReadAt(store, offset, 8).Some? then ReadAt(store, offset, 8).value else [];
    ReadAtExactly(store, offset, 8, bytes);
    forall b | |b| == 8 && At(store, offset, b)
      ensures ReadAt(store, offset, 8) == Some(b)
    {
      ReadAtExactly(store, offset, 8, b);
    }
  }

  /** The checks on four words. */
  function Checked(q: Queue, read: seq<byte>, write: seq<byte>, doorbell: seq<byte>, completion: seq<byte>):
    Result<Frontiers, string>
    requires |read| == |write| == |doorbell| == |completion| == 8
  {
    Check(q.ringBytes, Word(read), Word(write), Some(doorbell), Some(completion))
  }

  lemma CheckedExactly(q: Queue, read: seq<byte>, write: seq<byte>, doorbell: seq<byte>, completion: seq<byte>, f: Frontiers)
    requires |read| == |write| == |doorbell| == |completion| == 8 && f == FrontiersOf(read, write, doorbell, completion)
    ensures Checked(q, read, write, doorbell, completion).Success? <==> FitsRing(f, q.ringBytes)
    ensures FitsRing(f, q.ringBytes) ==> Checked(q, read, write, doorbell, completion) == Success(f)
  {
    AcceptedExactlyInWindow(q.ringBytes, LittleEndian(read), LittleEndian(write), doorbell, completion);
    FitsExactly(f, q.ringBytes);
  }

  lemma ChecksWords(m: Words, q: Queue, read: seq<byte>, write: seq<byte>, doorbell: seq<byte>, completion: seq<byte>)
    requires |read| == |write| == |doorbell| == |completion| == 8
    requires Read(m.read, q.readPointer, 8).Some? && Read(m.read, q.readPointer, 8).value.0 == read
    requires Read(m.write, q.writePointer, 8).Some? && Read(m.write, q.writePointer, 8).value.0 == write
    requires ReadAt(m.doorbell.backing, q.doorbellOffset, 8) == Some(doorbell)
    requires ReadAt(m.completion.backing, q.doorbellOffset + 1024, 8) == Some(completion)
    ensures QueueFrontiers(m, q) == Checked(q, read, write, doorbell, completion)
  {
    FrontiersAreChecked(m, q);
    ChecksRead(q, Read(m.read, q.readPointer, 8), Read(m.write, q.writePointer, 8), doorbell, completion);
  }

  lemma FrontiersAreChecked(m: Words, q: Queue)
    ensures QueueFrontiers(m, q)
         == CheckRead(q.ringBytes, Read(m.read, q.readPointer, 8), Read(m.write, q.writePointer, 8),
                      ReadAt(m.doorbell.backing, q.doorbellOffset, 8),
                      ReadAt(m.completion.backing, q.doorbellOffset + 1024, 8))
  {
  }

  lemma ChecksRead(q: Queue, read: Option<(seq<byte>, Allocation)>, write: Option<(seq<byte>, Allocation)>,
                   doorbell: seq<byte>, completion: seq<byte>)
    requires read.Some? && write.Some? && |read.value.0| == |write.value.0| == |doorbell| == |completion| == 8
    ensures CheckRead(q.ringBytes, read, write, Some(doorbell), Some(completion))
         == Checked(q, read.value.0, write.value.0, doorbell, completion)
  {
  }

  lemma FitsExactly(f: Frontiers, ringBytes: nat)
    ensures FitsRing(f, ringBytes) <==> InWindow(f, ringBytes)
  {
  }

  lemma FoundWords(m: Words, q: Queue, read: seq<byte>, write: seq<byte>, doorbell: seq<byte>, completion: seq<byte>)
    requires |read| == |write| == |doorbell| == |completion| == 8
    requires Read(m.read, q.readPointer, 8).Some? && Read(m.read, q.readPointer, 8).value.0 == read
    requires Read(m.write, q.writePointer, 8).Some? && Read(m.write, q.writePointer, 8).value.0 == write
    requires ReadAt(m.doorbell.backing, q.doorbellOffset, 8) == Some(doorbell)
    requires ReadAt(m.completion.backing, q.doorbellOffset + 1024, 8) == Some(completion)
    ensures var f := FrontiersOf(read, write, doorbell, completion);
            && (QueueFrontiers(m, q).Success? <==> FitsRing(f, q.ringBytes))
            && (FitsRing(f, q.ringBytes) ==> QueueFrontiers(m, q) == Success(f))
  {
    ChecksWords(m, q, read, write, doorbell, completion);
    CheckedExactly(q, read, write, doorbell, completion, FrontiersOf(read, write, doorbell, completion));
  }

  predicate AllFound(m: Words, q: Queue) {
    && Read(m.read, q.readPointer, 8).Some? && Read(m.write, q.writePointer, 8).Some?
    && ReadAt(m.doorbell.backing, q.doorbellOffset, 8).Some?
    && ReadAt(m.completion.backing, q.doorbellOffset + 1024, 8).Some?
  }

  lemma NotAllFound(m: Words, q: Queue)
    requires QueueFrontiers(m, q).Success?
    ensures AllFound(m, q)
  {
  }

  lemma AcceptedAreSeen(m: Words, q: Queue, f: Frontiers)
    requires Indexed(m.read.registry) && Indexed(m.write.registry) && QueueFrontiers(m, q) == Success(f)
    ensures Frontier(m, q, f) && FitsRing(f, q.ringBytes)
  {
    NotAllFound(m, q);
    var read := Indexes(m.read, q.readPointer);
    var write := Indexes(m.write, q.writePointer);
    var doorbell := BackingWord(m.doorbell.backing, q.doorbellOffset);
    var completion := BackingWord(m.completion.backing, q.doorbellOffset + 1024);
    FoundWords(m, q, read, write, doorbell, completion);
    assert WordsAt(m, q, read, write, doorbell, completion);
  }

  lemma SeenAreAccepted(m: Words, q: Queue, f: Frontiers, read: seq<byte>, write: seq<byte>, doorbell: seq<byte>,
                        completion: seq<byte>)
    requires Indexed(m.read.registry) && Indexed(m.write.registry)
    requires WordsAt(m, q, read, write, doorbell, completion)
    requires f == FrontiersOf(read, write, doorbell, completion) && FitsRing(f, q.ringBytes)
    ensures QueueFrontiers(m, q) == Success(f)
  {
    var r := Indexes(m.read, q.readPointer);
    var w := Indexes(m.write, q.writePointer);
    var d := BackingWord(m.doorbell.backing, q.doorbellOffset);
    var c := BackingWord(m.completion.backing, q.doorbellOffset + 1024);
    assert ReadAt(m.doorbell.backing, q.doorbellOffset, 8) == Some(doorbell);
    assert ReadAt(m.completion.backing, q.doorbellOffset + 1024, 8) == Some(completion);
    FoundWords(m, q, read, write, doorbell, completion);
  }

  /** The frontiers that are accepted are those of the four words, and fit the ring. */
  lemma FrontiersExactly(m: Words, q: Queue, f: Frontiers)
    requires Indexed(m.read.registry) && Indexed(m.write.registry)
    ensures QueueFrontiers(m, q) == Success(f) <==> Frontier(m, q, f) && FitsRing(f, q.ringBytes)
  {
    if QueueFrontiers(m, q) == Success(f) {
      AcceptedAreSeen(m, q, f);
    }
    if Frontier(m, q, f) && FitsRing(f, q.ringBytes) {
      var read, write, doorbell, completion :|
        WordsAt(m, q, read, write, doorbell, completion) && f == FrontiersOf(read, write, doorbell, completion);
      SeenAreAccepted(m, q, f, read, write, doorbell, completion);
    }
  }
}
