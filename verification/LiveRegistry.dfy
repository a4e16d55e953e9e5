/**
 One publisher replaces the registry file and then rewrites its lease in place;
 readers take no lock, read the registry twice around one read of the lease,
 and check the digest.  The publisher's writes and the readers' reads
 interleave one system call at a time.
 */
module LiveRegistry {
  import opened Wrappers
  import opened RegistryDocument

  datatype Lease = Lease(sessionUuid: string, generation: int, digest: Digest<Document>)

  /**
   The lease file: the first `written` of the `size` bytes of one encoded lease.
   The last byte is a newline, which the JSON decoder does not need.
   */
  datatype LeaseFile = Empty | Bytes(lease: Lease, written: nat, size: nat)

  function DecodeLease(f: LeaseFile): Option<Lease> {
    if f.Bytes? && f.written + 1 >= f.size then Some(f.lease) else None
  }

  /** Where the publisher is inside `publish`. */
  datatype Phase =
    | Idle
    | Replaced(document: Document)
    | Writing(document: Document, written: nat, size: nat)
    | Closed
    | Dead

  /** Everything a reader can see, and the publisher's own position. */
  datatype World = World(
    leasePath: string,
    sessionUuid: string,
    registry: Option<Document>,
    lease: LeaseFile,
    locked: bool,
    generation: nat,
    phase: Phase)

  function Opened(leasePath: string, sessionUuid: string): World {
    World(leasePath, sessionUuid, None, Empty, true, 0, Idle)
  }

  function LeaseOf(w: World, d: Document): Lease {
    Lease(w.sessionUuid, d.generation, Sha256(d))
  }

  // ----- The publisher's steps -----

  predicate CanPublish(w: World, d: Document) {
    && w.phase == Idle
    && d.generation == w.generation + 1
    && ValidDocument(d)
    && d.leasePath == w.leasePath
  }

  /** `os.replace` of the registry file. */
  function Replace(w: World, d: Document): World {
    w.(registry := Some(d), phase := Replaced(d))
  }

  /** `os.ftruncate` of the lease. */
  function Truncate(w: World, size: nat): World
    requires w.phase.Replaced?
  {
    w.(lease := Empty, phase := Writing(w.phase.document, 0, size))
  }

  /** One `os.write` of the lease that accepts `count` bytes. */
  function Write(w: World, count: nat): World
    requires w.phase.Writing?
  {
    var p := w.phase;
    w.(lease := Bytes(LeaseOf(w, p.document), p.written + count, p.size),
       phase := p.(written := p.written + count))
  }

  /** The final `os.fsync`, after which `generation` advances. */
  function Finish(w: World): World {
    w.(generation := w.generation + 1, phase := Idle)
  }

  function Close(w: World): World {
    w.(locked := false, phase := Closed)
  }

  /** The publisher's process ends in the middle of anything; the kernel drops its lock. */
  function Die(w: World): World {
    w.(locked := false, phase := Dead)
  }

  ghost predicate Next(w: World, v: World) {
    || v == w
    || (w.phase == Idle && exists d :: CanPublish(w, d) && v == Replace(w, d))
    || (w.phase.Replaced? && exists size :: size >= 2 && v == Truncate(w, size))
    || (w.phase.Writing? && exists count :: 0 < count <= w.phase.size - w.phase.written && v == Write(w, count))
    || (w.phase.Writing? && w.phase.written == w.phase.size && v == Finish(w))
    || (w.phase == Idle && v == Close(w))
    || (!w.phase.Closed? && !w.phase.Dead? && v == Die(w))
  }

  ghost predicate StepsAt(run: seq<World>, i: nat)
    requires i + 1 < |run|
  {
    Next(run[i], run[i + 1])
  }

  ghost predicate IsRun(run: seq<World>) {
    && (forall i {:trigger StepsAt(run, i)} :: 0 <= i < |run| - 1 ==> StepsAt(run, i))
    && (|run| > 0 ==> Consistent(run[0]))
  }

  /** What every step keeps. */
  ghost predicate Consistent(w: World) {
    && (w.registry.Some? ==> ValidDocument(w.registry.value) && w.registry.value.leasePath == w.leasePath)
    && (w.registry.None? ==> w.generation == 0 && w.lease == Empty)
    && (w.lease.Bytes? ==> w.lease.lease.sessionUuid == w.sessionUuid)
    && (w.locked <==> !w.phase.Closed? && !w.phase.Dead?)
    && match w.phase
       case Replaced(d) => w.registry == Some(d) && d.generation == w.generation + 1
       case Writing(d, written, size) =>
         && w.registry == Some(d) && d.generation == w.generation + 1 && size >= 2 && written <= size
         && w.lease == (if written == 0 then Empty else Bytes(LeaseOf(w, d), written, size))
       case Idle => Settled(w)
       case Closed => Settled(w)
       case Dead => w.registry.Some? ==> w.generation <= w.registry.value.generation <= w.generation + 1
  }

  /** No publish is in progress: the lease names the registry, completely. */
  ghost predicate Settled(w: World) {
    w.registry.Some? ==>
      && w.registry.value.generation == w.generation
      && w.lease.Bytes? && w.lease.written == w.lease.size
      && w.lease.lease == LeaseOf(w, w.registry.value)
  }

  lemma OpenedIsConsistent(leasePath: string, sessionUuid: string)
    ensures Consistent(Opened(leasePath, sessionUuid))
  {
  }

  lemma NextKeepsConsistent(w: World, v: World)
    requires Consistent(w) && Next(w, v)
    ensures Consistent(v)
  {
  }

  /** One step never takes the registry back, and only a new generation changes it. */
  ghost predicate Advances(w: World, v: World) {
    && v.leasePath == w.leasePath && v.sessionUuid == w.sessionUuid
    && (v.locked ==> w.locked)
    && (w.registry.Some? ==>
          && v.registry.Some?
          && w.registry.value.generation <= v.registry.value.generation
          && (w.registry.value.generation == v.registry.value.generation ==> w.registry == v.registry))
  }

  lemma NextAdvances(w: World, v: World)
    requires Consistent(w) && Next(w, v)
    ensures Advances(w, v)
  {
  }

  lemma RunGrows(run: seq<World>, next: World)
    requires run != [] && IsRun(run) && Next(run[|run| - 1], next)
    ensures IsRun(run + [next])
  {
    forall i | 0 <= i < |run|
      ensures StepsAt(run + [next], i)
    {
      assert i < |run| - 1 ==> StepsAt(run, i);
    }
  }

  lemma AdvancesTransitively(u: World, v: World, w: World)
    requires Advances(u, v) && Advances(v, w)
    ensures Advances(u, w)
  {
  }

  lemma {:induction false} RunIsConsistent(run: seq<World>, i: nat)
    requires IsRun(run) && i < |run|
    ensures Consistent(run[i])
  {
    if i > 0 {
      RunIsConsistent(run, i - 1);
      assert StepsAt(run, i - 1);
      NextKeepsConsistent(run[i - 1], run[i]);
    }
  }

  lemma {:induction false} RunAdvances(run: seq<World>, i: nat, j: nat)
    requires IsRun(run) && i <= j < |run|
    ensures Advances(run[i], run[j])
    decreases j
  {
    if i < j {
      RunAdvances(run, i, j - 1);
      RunIsConsistent(run, j - 1);
      assert StepsAt(run, j - 1);
      NextAdvances(run[j - 1], run[j]);
      AdvancesTransitively(run[i], run[j - 1], run[j]);
    }
  }

  /** A run from the moment the publisher has opened its lease. */
  ghost predicate IsSession(run: seq<World>, leasePath: string, sessionUuid: string) {
    && |run| > 0 && run[0] == Opened(leasePath, sessionUuid)
    && forall i {:trigger StepsAt(run, i)} :: 0 <= i < |run| - 1 ==> StepsAt(run, i)
  }

  /** Whatever is in the registry of a session, every generation from 1 to its own has been there, in one lease path. */
  lemma {:induction false} EveryGenerationWasShown(
      run: seq<World>, leasePath: string, sessionUuid: string, i: nat, g: nat) returns (t: nat)
    requires IsSession(run, leasePath, sessionUuid) && i < |run| && run[i].registry.Some?
    requires 1 <= g <= run[i].registry.value.generation
    ensures t <= i && run[t].registry.Some? && run[t].registry.value.generation == g
    ensures ValidDocument(run[t].registry.value) && run[t].registry.value.leasePath == leasePath
  {
    OpenedIsConsistent(leasePath, sessionUuid);
    assert IsRun(run);
    RunIsConsistent(run, i);
    RunAdvances(run, 0, i);
    if g == run[i].registry.value.generation {
      t := i;
    } else {
      RunIsConsistent(run, i - 1);
      assert StepsAt(run, i - 1);
      t := EveryGenerationWasShown(run, leasePath, sessionUuid, i - 1, g);
    }
  }

  // ----- One reader attempt -----

  /** The instants at which an attempt opens the registry, tests the lock, reads the lease, opens the registry again. */
  datatype Attempt = Attempt(first: nat, lock: nat, lease: nat, second: nat)

  predicate Ordered(a: Attempt) {
    a.first <= a.lock <= a.lease <= a.second
  }

  datatype Snapshot = Snapshot(registry: Document, leaseHeld: bool)

  datatype Error = Unreadable | Invalid | OutsideNamespace | BadLease | Changed | TornGeneration | TornDigest

  /** `LiveSnapshot.effective_status`. */
  predicate EffectivelyOn(s: Snapshot) {
    s.leaseHeld && s.registry.state == READY
  }

  function TryRead(run: seq<World>, a: Attempt): (r: Result<Snapshot, Error>)
    requires Ordered(a) && a.second < |run|
  {
    var first := run[a.first].registry;
    if first.None? then Failure(Unreadable)
    else if !ValidDocument(first.value) then Failure(Invalid)
    else if first.value.leasePath != run[a.first].leasePath then Failure(OutsideNamespace)
    else
      var lease := DecodeLease(run[a.lease].lease);
      if lease.None? then Failure(BadLease)
      else if run[a.second].registry != first then Failure(Changed)
      else if lease.value.generation != first.value.generation then Failure(TornGeneration)
      else if lease.value.digest != Sha256(first.value) then Failure(TornDigest)
      else Success(Snapshot(first.value, run[a.lock].locked))
  }

  /**
   Linearizability: a snapshot that is returned was, at one instant inside the
   call, both the content of the registry file and the document the lease
   named; it had passed every check of the publisher.
   */
  lemma ReadsAreLinearizable(run: seq<World>, a: Attempt) returns (t: nat)
    requires IsRun(run) && Ordered(a) && a.second < |run|
    requires TryRead(run, a).Success?
    ensures a.first <= t <= a.second
    ensures var d := TryRead(run, a).value.registry;
            && run[t].registry == Some(d)
            && run[t].lease.Bytes? && run[t].lease.size <= run[t].lease.written + 1
            && run[t].lease.lease == Lease(run[t].sessionUuid, d.generation, Sha256(d))
            && ValidDocument(d) && d.leasePath == run[t].leasePath
  {
    t := a.lease;
    RunAdvances(run, a.first, t);
    RunAdvances(run, t, a.second);
    RunIsConsistent(run, t);
    RunAdvances(run, a.first, t);
  }

  /**
   Each snapshot has an instant that decides: it reports ON exactly when its
   document, which was the registry then, is READY and the publisher still held
   its lease.
   */
  lemma OnMeansHeldAndReady(run: seq<World>, a: Attempt) returns (t: nat)
    requires IsRun(run) && Ordered(a) && a.second < |run|
    requires TryRead(run, a).Success?
    ensures a.first <= t <= a.second && run[t].registry == Some(TryRead(run, a).value.registry)
    ensures EffectivelyOn(TryRead(run, a).value) <==>
              run[t].locked && !run[t].phase.Closed? && !run[t].phase.Dead? && run[t].registry.value.state == READY
  {
    t := a.lock;
    RunAdvances(run, a.first, t);
    RunAdvances(run, t, a.second);
    RunIsConsistent(run, t);
  }

  /** After the publisher has closed or died, nothing reads as ON again. */
  lemma OffAfterTheEnd(run: seq<World>, end: nat, a: Attempt)
    requires IsRun(run) && end < |run| && (run[end].phase.Closed? || run[end].phase.Dead?)
    requires Ordered(a) && end <= a.lock && a.second < |run|
    ensures TryRead(run, a).Success? ==> !EffectivelyOn(TryRead(run, a).value)
  {
    RunIsConsistent(run, end);
    RunAdvances(run, end, a.lock);
  }

  /** A read that starts after another has ended never returns an older document. */
  lemma ReadsNeverGoBack(run: seq<World>, earlier: Attempt, later: Attempt)
    requires IsRun(run) && Ordered(earlier) && Ordered(later)
    requires earlier.second <= later.first && later.second < |run|
    requires TryRead(run, earlier).Success? && TryRead(run, later).Success?
    ensures var g, h := TryRead(run, earlier).value.registry, TryRead(run, later).value.registry;
            g.generation <= h.generation && (g.generation == h.generation ==> g == h)
  {
    RunAdvances(run, earlier.second, later.first);
  }

  /**
   Retrying is enough: once a document has been published and no publish is in
   progress from the first to the last instant of an attempt, the attempt
   returns that document.
   */
  lemma QuietReadsSucceed(run: seq<World>, a: Attempt)
    requires IsRun(run) && Ordered(a) && a.second < |run|
    requires run[a.first].generation > 0
    requires forall i :: a.first <= i <= a.second ==> run[i].phase.Idle? || run[i].phase.Closed?
    ensures run[a.first].registry.Some?
    ensures TryRead(run, a) == Success(Snapshot(run[a.first].registry.value, run[a.lock].locked))
  {
    RunIsConsistent(run, a.first);
    RunIsConsistent(run, a.lease);
    QuietGeneration(run, a.first, a.lease);
    QuietGeneration(run, a.first, a.second);
    RunAdvances(run, a.first, a.lease);
    RunAdvances(run, a.first, a.second);
    RunIsConsistent(run, a.second);
  }

  lemma {:induction false} QuietGeneration(run: seq<World>, i: nat, j: nat)
    requires IsRun(run) && i <= j < |run|
    requires forall k :: i <= k <= j ==> run[k].phase.Idle? || run[k].phase.Closed?
    ensures run[j].generation == run[i].generation
    decreases j
  {
    if i < j {
      QuietGeneration(run, i, j - 1);
      assert StepsAt(run, j - 1);
    }
  }

  // ----- The retry loop -----

  /** The attempts a call makes, one after the other. */
  predicate Schedule(attempts: seq<Attempt>, length: nat) {
    && (forall i :: 0 <= i < |attempts| ==> Ordered(attempts[i]) && attempts[i].second < length)
    && (forall i :: 0 < i < |attempts| ==> attempts[i - 1].second <= attempts[i].first)
  }

  /** `read_live_snapshot`: the first attempt that succeeds, or the last error. */
  method ReadLiveSnapshot(run: seq<World>, attempts: seq<Attempt>) returns (r: Result<Snapshot, Error>)
    requires |attempts| > 0 && Schedule(attempts, |run|)
    ensures r.Success? <==> exists i :: 0 <= i < |attempts| && TryRead(run, attempts[i]).Success?
    ensures r.Success? ==> exists i :: 0 <= i < |attempts| && TryRead(run, attempts[i]) == r
                                    && forall j :: 0 <= j < i ==> TryRead(run, attempts[j]).Failure?
    ensures r.Failure? ==> r == TryRead(run, attempts[|attempts| - 1])
  {
    var lastError := Unreadable;
    for attempt := 0 to |attempts|
      invariant forall j :: 0 <= j < attempt ==> TryRead(run, attempts[j]).Failure?
      invariant attempt > 0 ==> TryRead(run, attempts[attempt - 1]) == Failure(lastError)
    {
      r := TryRead(run, attempts[attempt]);
      if r.Success? {
        return;
      }
      lastError := r.error;
    }
    r := Failure(lastError);
  }

  // ----- The publisher -----

  datatype PublishError = PublisherClosed | WrongGeneration | InvalidDocument | WrongLeasePath

  /** The lease file is complete, but perhaps for its newline, and names this document. */
  predicate Names(f: LeaseFile, sessionUuid: string, d: Document) {
    f.Bytes? && f.size <= f.written + 1 && f.lease == Lease(sessionUuid, d.generation, Sha256(d))
  }

  class LiveRegistryPublisher {
    var world: World
    ghost var history: seq<World>
    ghost var published: seq<Document>

    /** The publisher is between calls, and every step it took is recorded. */
    ghost predicate Valid()
      reads this
    {
      && InProgress()
      && (world.phase == Idle || world.phase == Closed)
      && |published| == world.generation
      && Counted(published)
      && (published != [] ==> world.registry == Some(published[|published| - 1]))
    }

    /** The documents are valid and numbered from 1. */
    static ghost predicate Counted(documents: seq<Document>) {
      forall i {:trigger documents[i]} :: 0 <= i < |documents| ==>
        documents[i].generation == i + 1 && ValidDocument(documents[i])
    }

    static lemma OneMoreCounted(documents: seq<Document>, d: Document)
      requires Counted(documents) && ValidDocument(d) && d.generation == |documents| + 1
      ensures Counted(documents + [d])
    {
    }

    constructor (leasePath: string, sessionUuid: string)
      ensures Valid()
      ensures world == World(leasePath, sessionUuid, None, Empty, true, 0, Idle) && published == []
    {
      world := Opened(leasePath, sessionUuid);
      history := [Opened(leasePath, sessionUuid)];
      published := [];
    }

    /** One system call of the publisher. */
    method Perform(next: World)
      requires InProgress() && Next(world, next)
      modifies this`world, this`history
      ensures InProgress() && world == next && history == old(history) + [next]
    {
      NextKeepsConsistent(world, next);
      RunGrows(history, next);
      world := next;
      history := history + [next];
    }

    /** Every step so far is recorded. */
    ghost predicate InProgress()
      reads this
    {
      history != [] && history[|history| - 1] == world && IsRun(history) && Consistent(world)
    }

    /** The lease is truncated and written in as many pieces as the kernel chooses. */
    method RewriteLease()
      requires InProgress() && world.phase.Replaced?
      modifies this`world, this`history
      ensures InProgress() && old(history) <= history
      ensures world == old(world).(phase := Idle, generation := old(world.generation) + 1, lease := world.lease)
      ensures Names(world.lease, world.sessionUuid, old(world.phase.document))
    {
      ghost var d := world.phase.document;
      var size :| size >= 2;
      Perform(Truncate(world, size));
      while world.phase.written < size
        invariant InProgress() && old(history) <= history
        invariant world.phase.Writing? && world.phase.document == d && world.phase.size == size
        invariant world == old(world).(lease := world.lease, phase := world.phase)
        invariant world.phase.written <= size
        decreases size - world.phase.written
      {
        var count :| 0 < count <= size - world.phase.written;
        Perform(Write(world, count));
      }
      Perform(Finish(world));
    }

    /** `publish`: either nothing happens, or the document replaces the last one and the lease names it. */
    method Publish(d: Document) returns (error: Option<PublishError>)
      requires Valid()
      modifies this
      ensures Valid() && old(history) <= history
      ensures error.None? <==>
                && old(world.phase) == Idle && d.generation == old(world.generation) + 1
                && ValidDocument(d) && d.leasePath == old(world.leasePath)
      ensures error.None? ==> published == old(published) + [d]
      ensures error.None? ==> world == old(world).(registry := Some(d), generation := d.generation, lease := world.lease)
      ensures error.None? ==> Names(world.lease, old(world.sessionUuid), d)
      ensures error.Some? ==> world == old(world) && history == old(history) && published == old(published)
    {
      if world.phase == Closed {
        return Some(PublisherClosed);
      }
      if d.generation != world.generation + 1 {
        return Some(WrongGeneration);
      }
      if !ValidDocument(d) {
        return Some(InvalidDocument);
      }
      if d.leasePath != world.leasePath {
        return Some(WrongLeasePath);
      }
      Perform(Replace(world, d));
      RewriteLease();
      OneMoreCounted(published, d);
      published := published + [d];
      return None;
    }

    /** `close`: dropping the lock is the last thing a publisher does. */
    method CloseSession()
      requires Valid()
      modifies this
      ensures Valid() && old(history) <= history
      ensures world == old(world).(locked := false, phase := Closed) && published == old(published)
    {
      if world.phase == Closed {
        return;
      }
      Perform(Close(world));
    }
  }
}
