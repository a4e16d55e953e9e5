/** The whole capture, from the worker's trace to the committed capsule. */
module CapsuleProcess {
  import opened AqlPacket
  import opened AqlQueue
  import opened Bytes
  import opened CapsuleAgreement
  import opened CapsuleCapture
  import opened CapsuleDocument
  import opened CapsuleFiles
  import opened CapsuleMemory
  import opened CapsulePicture
  import opened CapsuleRoles
  import opened CapsuleRun
  import opened KmtRegistry
  import opened Wrappers
  import V = MemoryView

  lemma SelectedIsChosen(i: Input, turns: Queue -> Words, requested: Option<nat>, choice: Choice)
    requires Indexed(i.registry) && Budgets(i.limits) && |i.worker| > 0
    requires OnlyPending(ReadingOf(turns), i.registry.queues, choice.queue, requested)
    requires ReadingOf(turns)(choice.queue) == Success(choice.frontiers)
    ensures Chosen(i, turns(choice.queue), choice)
  {
  }

  /** The stores behind GPU memory at one instant. */
  datatype Stores = Stores(backing: Source, process: Option<Source>)

  function MemoryOf(registry: Registry, stores: Stores): Memory {
    Memory(registry, stores.backing, stores.process)
  }

  /** The four words of a queue's frontiers, each read when its store is as given. */
  datatype WordStores = WordStores(read: Stores, write: Stores, doorbell: Stores, completion: Stores)

  function WordsOf(registry: Registry, stores: WordStores): Words {
    Words(MemoryOf(registry, stores.read), MemoryOf(registry, stores.write), MemoryOf(registry, stores.doorbell),
          MemoryOf(registry, stores.completion))
  }

  /** The stores at every reading of a capture. */
  datatype Film = Film(
    turns: Queue -> WordStores,
    readings: Use -> Stores,
    passes: Allocation -> Stores,
    last: WordStores)

  /** Nothing changes from the first packet to the last copy. */
  ghost predicate Static(film: Film) {
    forall a, use :: film.passes(a) == film.readings(use)
  }

  function InstantsOf(registry: Registry, film: Film): Instants {
    use => MemoryOf(registry, film.readings(use))
  }

  function PassesOf(registry: Registry, film: Film): Passes {
    a => MemoryOf(registry, film.passes(a))
  }

  lemma OneRegistry(registry: Registry, film: Film)
    ensures AllOf(InstantsOf(registry, film), registry)
    ensures Static(film) ==> forall a, use :: PassesOf(registry, film)(a) == InstantsOf(registry, film)(use)
  {
    var at, passes := InstantsOf(registry, film), PassesOf(registry, film);
    forall use
      ensures at(use).registry == registry
    {
      assert at(use) == MemoryOf(registry, film.readings(use));
    }
    forall a, use | Static(film)
      ensures passes(a) == at(use)
    {
      assert passes(a) == MemoryOf(registry, film.passes(a));
    }
  }

  /** When its turn came, the words of this queue were sound and showed a packet that is published and not retired. */
  ghost predicate HasPending(registry: Registry, film: Film, requested: Option<nat>, q: Queue, f: Frontiers) {
    && q in registry.queues && q.active && (requested.None? || q.id == requested.value)
    && V.Frontier(WordsOf(registry, film.turns(q)), q, f) && V.FitsRing(f, q.ringBytes) && f.completion < f.published
  }

  /** This is the only such queue. */
  ghost predicate Picks(registry: Registry, film: Film, requested: Option<nat>, q: Queue, f: Frontiers) {
    && HasPending(registry, film, requested, q, f)
    && forall p, g :: HasPending(registry, film, requested, p, g) ==> p == q
  }

  /** The capsule pictures that queue, whose words say the same at the end. */
  ghost predicate IsCapture(c: Capsule, i: Input, film: Film, requested: Option<nat>, q: Queue, f: Frontiers) {
    && Picks(i.registry, film, requested, q, f)
    && Pictures(c, i, q, f, InstantsOf(i.registry, film), PassesOf(i.registry, film))
    && V.Frontier(WordsOf(i.registry, film.last), q, f)
  }

  lemma OnlyPendingPicks(registry: Registry, film: Film, requested: Option<nat>, turns: Queue -> Words, q: Queue, f: Frontiers)
    requires Indexed(registry) && (forall p :: turns(p) == WordsOf(registry, film.turns(p)))
    requires OnlyPending(ReadingOf(turns), registry.queues, q, requested) && ReadingOf(turns)(q) == Success(f)
    ensures Picks(registry, film, requested, q, f)
  {
    V.FrontiersExactly(turns(q), q, f);
    forall p, g | HasPending(registry, film, requested, p, g)
      ensures p == q
    {
      V.FrontiersExactly(turns(p), p, g);
      assert ReadingOf(turns)(p) == Success(g);
      assert Pending(ReadingOf(turns), p, requested);
    }
  }

  lemma CommittedIsCapture(c: Capsule, i: Input, film: Film, requested: Option<nat>, choice: Choice, o: Observation, w: Gathering)
    requires Indexed(i.registry) && Picks(i.registry, film, requested, choice.queue, choice.frontiers)
    requires Observe(PartsOf(ReadersOf(InstantsOf(i.registry, film)), choice.queue, choice.frontiers, i.limits)) == Success(o)
    requires Shown(c, i, Picked(choice.queue, choice.frontiers, o), w, ContentsOf(PassesOf(i.registry, film)))
    requires QueueFrontiers(WordsOf(i.registry, film.last), choice.queue) == Success(choice.frontiers)
    ensures IsCapture(c, i, film, requested, choice.queue, choice.frontiers)
  {
    OneRegistry(i.registry, film);
    V.FrontiersExactly(WordsOf(i.registry, film.last), choice.queue, choice.frontiers);
    CommittedIsPicture(c, i, choice.queue, choice.frontiers, o, w, InstantsOf(i.registry, film), PassesOf(i.registry, film));
  }

  /**
   The whole capture, from the worker's trace on: every capsule that it commits
   pictures the pending queue of a process that the trace describes, and over memory
   that is static from the first packet to the last copy, `verify` accepts it.
   */
  method CaptureProcess(lines: seq<Line>, pid: nat, requested: Option<nat>, worker: seq<byte>, trace: seq<byte>,
                        logs: seq<Log>, snapshots: Snapshots, limits: Limits, film: Film, render: Render)
    returns (r: Result<Capsule, string>)
    requires IsRender(render) && Budgets(limits) && (worker == [] ==> lines == [])
    ensures Static(film) && r.Success? ==> Verifies(r.value, render)
    ensures r.Success? ==>
              exists registry, q, f ::
                && Describes(registry, lines, Some(pid)) && registry.pid == pid
                && IsCapture(r.value, Input(registry, worker, trace, logs, snapshots, limits), film, requested, q, f)
  {
    var parsed := ParseRegistry(lines, Some(pid));
    if parsed.Failure? {
      return Failure(parsed.error);
    }
    var registry := parsed.value;
    assert lines != [];
    r := CaptureRegistry(Input(registry, worker, trace, logs, snapshots, limits), requested, film, render);
  }

  /** From the parsed trace on. */
  method CaptureRegistry(i: Input, requested: Option<nat>, film: Film, render: Render) returns (r: Result<Capsule, string>)
    requires IsRender(render) && Indexed(i.registry) && Budgets(i.limits) && |i.worker| > 0
    ensures Static(film) && r.Success? ==> Verifies(r.value, render)
    ensures r.Success? ==> exists q, f :: IsCapture(r.value, i, film, requested, q, f)
  {
    var registry := i.registry;
    var turns := (q: Queue) => WordsOf(registry, film.turns(q));
    var selected := SelectQueue(ReadingOf(turns), registry.queues, requested);
    if selected.Failure? {
      return Failure(selected.error);
    }
    var choice := selected.value;
    SelectedIsChosen(i, turns, requested, choice);
    OneRegistry(registry, film);
    OnlyPendingPicks(registry, film, requested, turns, choice.queue, choice.frontiers);
    r := CaptureChosen(i, turns(choice.queue), film, choice, requested, render);
  }

  /** From the selected queue on. */
  method CaptureChosen(i: Input, words: Words, film: Film, choice: Choice, requested: Option<nat>, render: Render)
    returns (r: Result<Capsule, string>)
    requires IsRender(render) && Chosen(i, words, choice) && Picks(i.registry, film, requested, choice.queue, choice.frontiers)
    ensures Static(film) && r.Success? ==> Verifies(r.value, render)
    ensures r.Success? ==> IsCapture(r.value, i, film, requested, choice.queue, choice.frontiers)
  {
    var at, passes := InstantsOf(i.registry, film), PassesOf(i.registry, film);
    OneRegistry(i.registry, film);
    r := CaptureMemory(i, words, at, passes, WordsOf(i.registry, film.last), choice, render);
    if r.Success? {
      ghost var o := Observe(PartsOf(ReadersOf(at), choice.queue, choice.frontiers, i.limits)).value;
      ghost var w :| Shown(r.value, i, Picked(choice.queue, choice.frontiers, o), w, ContentsOf(passes));
      CommittedIsCapture(r.value, i, film, requested, choice, o, w);
    }
  }
}
