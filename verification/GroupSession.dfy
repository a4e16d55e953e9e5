/**
 The supervisor of a rank group publishes STARTING, READY and OFF documents
 while it polls its workers.
 */
module GroupSession {
  import opened Wrappers
  import opened RegistryDocument
  import LiveRegistry
  import PosixPath

  datatype Identity = Identity(jobUuid: string, epoch: int, rank: int, worldSize: int)

  /** A gem5 daemon of one rank: the identity on its command line and the one its log reported. */
  datatype Runtime = Runtime(pid: int, configured: Identity, observed: Option<Identity>, daemonUuid: Option<string>)

  datatype RankLaunch = RankLaunch(
    rank: int,
    endpoint: string,
    runtimeDirectory: string,
    tritonCacheDirectory: string,
    gem5CacheDirectory: string)

  datatype InstanceRun = InstanceRun(index: nat, launch: RankLaunch, workerPid: Option<int>, runtimes: seq<Runtime>)

  /** What `_make_runs` and `make_rank_launch` guarantee of the runs of a group, and the kernel of their PIDs. */
  predicate WellFormed(runs: seq<InstanceRun>) {
    forall i :: 0 <= i < |runs| ==>
      && runs[i].index == i && runs[i].launch.rank == i
      && PosixPath.IsAbsoluteNormal(runs[i].launch.endpoint)
      && PosixPath.IsAbsoluteNormal(runs[i].launch.runtimeDirectory)
      && PosixPath.IsAbsoluteNormal(runs[i].launch.tritonCacheDirectory)
      && PosixPath.IsAbsoluteNormal(runs[i].launch.gem5CacheDirectory)
      && (runs[i].workerPid.Some? ==> runs[i].workerPid.value > 0)
      && (forall r :: r in runs[i].runtimes ==> r.pid > 0 && (r.daemonUuid.Some? ==> IsHex32(r.daemonUuid.value)))
  }

  predicate Started(runs: seq<InstanceRun>) {
    forall i :: 0 <= i < |runs| ==> runs[i].workerPid.Some?
  }

  /** The condition under which `refresh` publishes READY. */
  predicate ReportsOwnIdentity(run: InstanceRun) {
    && |run.runtimes| == 1
    && run.runtimes[0].observed == Some(run.runtimes[0].configured)
    && run.runtimes[0].daemonUuid.Some?
  }

  predicate AllReport(runs: seq<InstanceRun>) {
    forall i :: 0 <= i < |runs| ==> ReportsOwnIdentity(runs[i])
  }

  predicate NonzeroUuids(runs: seq<InstanceRun>) {
    forall i, r :: 0 <= i < |runs| && r in runs[i].runtimes && r.daemonUuid.Some? ==> !IsZeroUuid(r.daemonUuid.value)
  }

  /** `_rank_entry`. */
  function EntryOf(run: InstanceRun, state: State, world: int): RankEntry {
    var daemon := if state == READY && run.runtimes != [] then Some(run.runtimes[0]) else None;
    RankEntry(
      run.launch.rank,
      world,
      state,
      run.workerPid,
      if daemon.Some? then Some(daemon.value.pid) else None,
      if daemon.Some? then daemon.value.daemonUuid else None,
      run.launch.endpoint,
      run.launch.runtimeDirectory,
      run.launch.tritonCacheDirectory,
      run.launch.gem5CacheDirectory)
  }

  function EntriesOf(runs: seq<InstanceRun>, state: State): (entries: seq<RankEntry>)
    ensures |entries| == |runs|
    ensures forall i :: 0 <= i < |runs| ==> entries[i] == EntryOf(runs[i], state, |runs|)
  {
    seq(|runs|, i requires 0 <= i < |runs| => EntryOf(runs[i], state, |runs|))
  }

  /** What an entry tells its readers of a run; the daemon only when the group is READY. */
  predicate Shows(e: RankEntry, run: InstanceRun, state: State, world: int) {
    && e.rank == run.launch.rank && e.worldSize == world && e.state == state && e.workerPid == run.workerPid
    && e.endpoint == run.launch.endpoint && e.runtimeDirectory == run.launch.runtimeDirectory
    && e.tritonCacheDirectory == run.launch.tritonCacheDirectory
    && e.gem5CacheDirectory == run.launch.gem5CacheDirectory
    && (if state == READY && run.runtimes != []
        then e.daemonPid == Some(run.runtimes[0].pid) && e.daemonUuid == run.runtimes[0].daemonUuid
        else e.daemonPid == None && e.daemonUuid == None)
  }

  /** The document shows these runs, one entry each. */
  ghost predicate ShowsAll(d: Document, runs: seq<InstanceRun>) {
    |d.ranks| == |runs| && forall i {:trigger d.ranks[i]} :: 0 <= i < |runs| ==> Shows(d.ranks[i], runs[i], d.state, |runs|)
  }

  lemma EntriesShow(runs: seq<InstanceRun>, state: State)
    ensures |EntriesOf(runs, state)| == |runs|
    ensures forall i {:trigger EntriesOf(runs, state)[i]} :: 0 <= i < |runs| ==> Shows(EntriesOf(runs, state)[i], runs[i], state, |runs|)
  {
  }

  /** The supervisor's own identity and clock reading, which go into every document. */
  datatype Stamp = Stamp(updatedAtNs: int, supervisorPid: int, supervisorStartTime: int)

  predicate ValidStamp(s: Stamp) {
    s.updatedAtNs > 0 && s.supervisorPid > 0 && s.supervisorStartTime > 0
  }

  function DocumentOf(
      generation: nat, stamp: Stamp, leasePath: string, jobUuid: string, epoch: int,
      runs: seq<InstanceRun>, state: State): Document {
    Document(generation, state, stamp.updatedAtNs, stamp.supervisorPid, stamp.supervisorStartTime, leasePath,
             jobUuid, epoch, |runs|, EntriesOf(runs, state))
  }

  /** What makes one run's entry valid. */
  predicate EntryMayBePublished(run: InstanceRun, state: State) {
    state == READY ==> run.runtimes != [] && run.runtimes[0].daemonUuid.Some?
                       && !IsZeroUuid(run.runtimes[0].daemonUuid.value)
  }

  lemma EntryIsValid(runs: seq<InstanceRun>, i: nat, state: State)
    requires i < |runs| && WellFormed(runs) && (state == READY ==> Started(runs) && ReportsOwnIdentity(runs[i]))
    ensures ValidRank(EntryOf(runs[i], state, |runs|), state, |runs|) <==> EntryMayBePublished(runs[i], state)
  {
    if state == READY {
      assert runs[i].runtimes[0] in runs[i].runtimes;
    }
  }

  /** The only daemon of each run decides. */
  lemma UuidsAreThoseOfEntries(runs: seq<InstanceRun>)
    requires AllReport(runs)
    ensures NonzeroUuids(runs) <==> forall i {:trigger runs[i]} :: 0 <= i < |runs| ==> EntryMayBePublished(runs[i], READY)
  {
    if forall i {:trigger runs[i]} :: 0 <= i < |runs| ==> EntryMayBePublished(runs[i], READY) {
      forall i, r | 0 <= i < |runs| && r in runs[i].runtimes && r.daemonUuid.Some?
        ensures !IsZeroUuid(r.daemonUuid.value)
      {
        assert ReportsOwnIdentity(runs[i]) && r == runs[i].runtimes[0];
      }
    }
    if NonzeroUuids(runs) {
      forall i {:trigger runs[i]} | 0 <= i < |runs|
        ensures EntryMayBePublished(runs[i], READY)
      {
        assert ReportsOwnIdentity(runs[i]) && runs[i].runtimes[0] in runs[i].runtimes;
      }
    }
  }

  /** A document with valid fields is valid exactly when its entries are. */
  lemma DocumentIsValid(d: Document, runs: seq<InstanceRun>)
    requires d.generation > 0 && d.updatedAtNs > 0 && d.supervisorPid > 0 && d.supervisorStartTime > 0
    requires PosixPath.IsAbsoluteNormal(d.leasePath) && CanonicalUuid(d.jobUuid) && d.epoch > 0
    requires d.worldSize == |runs| > 0 && d.ranks == EntriesOf(runs, d.state) && WellFormed(runs)
    ensures ValidDocument(d) <==>
              forall i {:trigger runs[i]} :: 0 <= i < |runs| ==> ValidRank(EntryOf(runs[i], d.state, |runs|), d.state, |runs|)
  {
    if forall i {:trigger runs[i]} :: 0 <= i < |runs| ==> ValidRank(EntryOf(runs[i], d.state, |runs|), d.state, |runs|) {
      forall i | 0 <= i < |d.ranks|
        ensures ValidRank(d.ranks[i], d.state, d.worldSize) && d.ranks[i].rank == i
      {
        assert d.ranks[i] == EntryOf(runs[i], d.state, |runs|);
      }
    }
    if ValidDocument(d) {
      forall i {:trigger runs[i]} | 0 <= i < |runs|
        ensures ValidRank(EntryOf(runs[i], d.state, |runs|), d.state, |runs|)
      {
        assert d.ranks[i] == EntryOf(runs[i], d.state, |runs|);
      }
    }
  }

  /** STARTING and OFF documents are always valid; a READY one exactly when no daemon reported the zero UUID. */
  lemma BuiltDocumentsAreValid(
      generation: nat, stamp: Stamp, leasePath: string, jobUuid: string, epoch: int,
      runs: seq<InstanceRun>, state: State)
    requires generation > 0 && ValidStamp(stamp) && PosixPath.IsAbsoluteNormal(leasePath)
    requires CanonicalUuid(jobUuid) && epoch > 0 && runs != [] && WellFormed(runs)
    requires state == READY ==> Started(runs) && AllReport(runs)
    ensures ValidDocument(DocumentOf(generation, stamp, leasePath, jobUuid, epoch, runs, state))
       <==> (state == READY ==> NonzeroUuids(runs))
  {
    DocumentIsValid(DocumentOf(generation, stamp, leasePath, jobUuid, epoch, runs, state), runs);
    forall i {:trigger runs[i]} | 0 <= i < |runs|
      ensures ValidRank(EntryOf(runs[i], state, |runs|), state, |runs|) <==> EntryMayBePublished(runs[i], state)
    {
      EntryIsValid(runs, i, state);
    }
    if state == READY {
      UuidsAreThoseOfEntries(runs);
    }
  }

  // ----- The order of the published states -----

  function Ordinal(s: State): nat {
    match s
    case STARTING => 0
    case READY => 1
    case OFF => 2
  }

  /** A subsequence of STARTING, READY, OFF in which READY is never first. */
  predicate InOrder(documents: seq<Document>) {
    || documents == []
    || (|documents| == 1 && documents[0].state != READY)
    || (|documents| == 2 && documents[0].state == STARTING && documents[1].state != STARTING)
    || (|documents| == 3 && documents[0].state == STARTING && documents[1].state == READY && documents[2].state == OFF)
  }

  lemma InOrderGrows(documents: seq<Document>, d: Document)
    requires InOrder(documents)
    requires documents == [] ==> d.state != READY
    requires documents != [] ==> Ordinal(documents[|documents| - 1].state) < Ordinal(d.state)
    ensures InOrder(documents + [d])
  {
  }

  // ----- The session -----

  function Positions(n: nat): (ps: set<nat>)
    ensures forall p: nat :: p in ps <==> p < n
  {
    if n == 0 then {} else Positions(n - 1) + {n - 1}
  }

  /** One turn of the poll loop: who exited with what status, the runs as they are seen then, and the health verdict. */
  datatype Poll = Poll(exits: map<nat, int>, runs: seq<InstanceRun>, health: Option<string>, deadlinePassed: bool)

  // ----- What ends the poll loop -----

  /** The positions whose workers have not exited in the first k polls. */
  function ActiveAt(n: nat, polls: seq<Poll>, k: nat): (active: set<nat>)
    requires k <= |polls|
    ensures forall p: nat :: p in active <==> p < n && forall j :: 0 <= j < k ==> p !in polls[j].exits
  {
    if k == 0 then Positions(n) else ActiveAt(n, polls, k - 1) - polls[k - 1].exits.Keys
  }

  /** A worker exits with an error. */
  predicate Fails(active: set<nat>, poll: Poll) {
    exists p :: p in active && p in poll.exits && poll.exits[p] != 0
  }

  /** In one of the first k polls every rank reported its own identity. */
  predicate ReadyBy(polls: seq<Poll>, k: nat)
    requires k <= |polls|
  {
    exists j :: 0 <= j < k && AllReport(polls[j].runs)
  }

  /** READY is due, and its document is refused. */
  predicate RaisesAt(polls: seq<Poll>, k: nat)
    requires k < |polls|
  {
    !ReadyBy(polls, k) && AllReport(polls[k].runs) && !NonzeroUuids(polls[k].runs)
  }

  predicate AbortsAt(n: nat, polls: seq<Poll>, k: nat)
    requires k < |polls|
  {
    Fails(ActiveAt(n, polls, k), polls[k]) || (ReadyBy(polls, k + 1) && polls[k].health.Some?)
  }

  predicate StopsAt(n: nat, polls: seq<Poll>, k: nat)
    requires k < |polls|
  {
    RaisesAt(polls, k) || AbortsAt(n, polls, k) || polls[k].deadlinePassed
  }

  /** Every turn before the last of these leaves the loop going, and each finds a worker. */
  predicate GoesOn(n: nat, polls: seq<Poll>, turns: nat)
    requires turns <= |polls|
  {
    forall k :: 0 <= k < turns ==> ActiveAt(n, polls, k) != {} && (StopsAt(n, polls, k) ==> k == turns - 1)
  }

  lemma GoesOnOnce(n: nat, polls: seq<Poll>, turns: nat)
    requires turns < |polls| && GoesOn(n, polls, turns) && ActiveAt(n, polls, turns) != {}
    requires turns > 0 ==> !StopsAt(n, polls, turns - 1)
    ensures GoesOn(n, polls, turns + 1)
  {
  }

  /** The loop makes so many turns: it stops at the first poll that makes it, or when no worker is left. */
  predicate LastsFor(n: nat, polls: seq<Poll>, turns: nat) {
    && turns <= |polls| && GoesOn(n, polls, turns)
    && (turns == |polls| || ActiveAt(n, polls, turns) == {} || (turns > 0 && StopsAt(n, polls, turns - 1)))
  }

  /** The reason to abort in the last turn. */
  function ReasonAfter(n: nat, polls: seq<Poll>, turns: nat): Option<string>
    requires turns <= |polls|
  {
    if turns == 0 || RaisesAt(polls, turns - 1) then None
    else if Fails(ActiveAt(n, polls, turns - 1), polls[turns - 1]) then Some("exited")
    else if ReadyBy(polls, turns) then polls[turns - 1].health
    else None
  }

  predicate Raised(polls: seq<Poll>, turns: nat)
    requires turns <= |polls|
  {
    turns > 0 && RaisesAt(polls, turns - 1)
  }

  class GroupRegistrySession {
    const publisher: LiveRegistry.LiveRegistryPublisher
    const leasePath: string
    const jobUuid: string
    const epoch: int
    const worldSize: nat
    var state: Option<State>
    var abortReason: Option<string>
    /** The documents the publisher has accepted; its generation is their number. */
    var published: seq<Document>

    /** The publisher is open, waits for the next document, and has accepted just these. */
    ghost predicate Synced()
      reads this, publisher
    {
      && publisher.Valid() && publisher.world.phase == LiveRegistry.Idle
      && publisher.world.leasePath == leasePath && publisher.published == published
    }

    ghost predicate Valid()
      reads this, publisher
    {
      && Synced()
      && PosixPath.IsAbsoluteNormal(leasePath) && CanonicalUuid(jobUuid) && epoch > 0 && worldSize > 0
      && InOrder(published)
      && AllProper(published)
      && state == (if published == [] then None else Some(published[|published| - 1].state))
    }

    ghost predicate AllProper(documents: seq<Document>) {
      forall i {:trigger documents[i]} :: 0 <= i < |documents| ==> Proper(documents[i], i + 1)
    }

    lemma ProperGrows(documents: seq<Document>, d: Document)
      requires AllProper(documents) && Proper(d, |documents| + 1)
      ensures AllProper(documents + [d])
    {
    }

    /** A valid document of this session with this generation. */
    predicate Proper(d: Document, generation: nat) {
      && ValidDocument(d) && d.generation == generation && d.leasePath == leasePath
      && d.jobUuid == jobUuid && d.epoch == epoch && d.worldSize == worldSize
    }

    constructor (publisher: LiveRegistry.LiveRegistryPublisher, leasePath: string, jobUuid: string, epoch: int,
                 worldSize: nat)
      requires publisher.Valid() && publisher.world.phase == LiveRegistry.Idle
      requires publisher.world.leasePath == leasePath && publisher.published == []
      requires PosixPath.IsAbsoluteNormal(leasePath)
      requires CanonicalUuid(jobUuid) && epoch > 0 && worldSize > 0
      ensures Valid() && this.publisher == publisher && this.worldSize == worldSize && state.None? && abortReason.None?
    {
      this.publisher := publisher;
      this.leasePath := leasePath;
      this.jobUuid := jobUuid;
      this.epoch := epoch;
      this.worldSize := worldSize;
      state := None;
      abortReason := None;
      published := [];
    }

    /** Hands the document to the publisher. */
    method Send(d: Document) returns (accepted: bool)
      requires Synced()
      modifies this`published, publisher
      ensures Synced()
      ensures accepted <==> d.generation == |old(published)| + 1 && ValidDocument(d) && d.leasePath == leasePath
      ensures published == if accepted then old(published) + [d] else old(published)
    {
      var error := publisher.Publish(d);
      accepted := error.None?;
      if accepted {
        published := published + [d];
      }
    }

    /** `base_document` with the entries of the runs, at some time of the clock. */
    method BaseDocument(next: State, runs: seq<InstanceRun>) returns (d: Document)
      requires Valid() && WellFormed(runs) && |runs| == worldSize
      requires next == READY ==> Started(runs) && AllReport(runs)
      ensures d.generation == |published| + 1 && d.state == next && d.leasePath == leasePath
      ensures ShowsAll(d, runs)
      ensures ValidDocument(d) <==> (next == READY ==> NonzeroUuids(runs))
      ensures ValidDocument(d) ==> Proper(d, |published| + 1)
    {
      assert ValidStamp(Stamp(1, 1, 1));
      var stamp :| ValidStamp(stamp);
      d := DocumentOf(|published| + 1, stamp, leasePath, jobUuid, epoch, runs, next);
      BuiltDocumentsAreValid(|published| + 1, stamp, leasePath, jobUuid, epoch, runs, next);
      EntriesShow(runs, next);
    }

    /** `publish`: a state is published once; a document that fails validation raises and changes nothing. */
    method Publish(next: State, runs: seq<InstanceRun>) returns (raised: bool)
      requires Valid() && WellFormed(runs) && |runs| == worldSize
      requires state.Some? ==> Ordinal(state.value) <= Ordinal(next)
      requires next == READY ==> state == Some(STARTING) && Started(runs) && AllReport(runs)
      modifies this`state, this`published, publisher
      ensures Valid()
      ensures raised <==> next == READY && !NonzeroUuids(runs)
      ensures state == if raised then old(state) else Some(next)
      ensures old(published) <= published
      ensures !raised ==> published != [] && published[|published| - 1].state == next
      ensures raised || old(state) == Some(next) ==> published == old(published)
      ensures !raised && old(state) != Some(next) ==>
                && |published| == |old(published)| + 1
                && published[|published| - 1].state == next
                && ShowsAll(published[|published| - 1], runs)
    {
      if state == Some(next) {
        return false;
      }
      var document := BaseDocument(next, runs);
      ghost var before := published;
      var accepted := Send(document);
      if !accepted {
        return true;
      }
      InOrderGrows(before, document);
      ProperGrows(before, document);
      assert published == before + [document] && published[|published| - 1] == document;
      state := Some(next);
      return false;
    }

    /** The readiness test of `refresh`, run by run. */
    static method CheckReady(runs: seq<InstanceRun>) returns (ready: bool)
      ensures ready <==> AllReport(runs)
    {
      ready := true;
      for i := 0 to |runs|
        invariant ready <==> forall k :: 0 <= k < i ==> ReportsOwnIdentity(runs[k])
      {
        if !ReportsOwnIdentity(runs[i]) {
          ready := false;
        }
      }
    }

    /** The documents that are not in `before` show these runs, which in a READY one all report their own identity. */
    ghost predicate NewDocuments(before: seq<Document>, runs: seq<InstanceRun>)
      reads this
    {
      NewShow(before, published, runs)
    }

    static ghost predicate NewShow(before: seq<Document>, after: seq<Document>, runs: seq<InstanceRun>) {
      forall i {:trigger after[i]} :: |before| <= i < |after| ==>
        ShowsAll(after[i], runs) && (after[i].state == READY ==> AllReport(runs))
    }

    static lemma OneNewShows(before: seq<Document>, after: seq<Document>, runs: seq<InstanceRun>)
      requires |after| == |before| + 1
      requires ShowsAll(after[|before|], runs) && (after[|before|].state == READY ==> AllReport(runs))
      ensures NewShow(before, after, runs)
    {
    }

    /** `refresh`. */
    method Refresh(runs: seq<InstanceRun>) returns (raised: bool)
      requires Valid() && WellFormed(runs) && |runs| == worldSize && Started(runs)
      modifies this`state, this`published, publisher
      ensures Valid() && old(published) <= published
      ensures raised <==> old(state) == Some(STARTING) && AllReport(runs) && !NonzeroUuids(runs)
      ensures state == (if old(state) == Some(STARTING) && AllReport(runs) && !raised then Some(READY) else old(state))
      ensures state == old(state) ==> published == old(published)
      ensures state != old(state) ==> |published| == |old(published)| + 1
      ensures NewDocuments(old(published), runs)
    {
      raised := false;
      if state != Some(STARTING) {
        return;
      }
      var ready := CheckReady(runs);
      if ready {
        ghost var before := published;
        raised := Publish(READY, runs);
        if !raised {
          OneNewShows(before, published, runs);
        }
      }
    }

    /** `abort`. */
    method Abort(runs: seq<InstanceRun>, reason: string)
      requires Valid() && WellFormed(runs) && |runs| == worldSize
      modifies this, publisher
      ensures Valid() && old(published) <= published && state == Some(OFF)
      ensures |published| == |old(published)| + if old(state) == Some(OFF) then 0 else 1
      ensures NewDocuments(old(published), runs)
      ensures abortReason == (if old(abortReason).None? then Some(reason) else old(abortReason))
    {
      if abortReason.None? {
        abortReason := Some(reason);
      }
      PublishEnd(runs);
    }

    /** The last document of a session, if it is not out yet. */
    method PublishEnd(runs: seq<InstanceRun>)
      requires Valid() && WellFormed(runs) && |runs| == worldSize
      modifies this`state, this`published, publisher
      ensures Valid() && old(published) <= published && state == Some(OFF)
      ensures |published| == |old(published)| + if old(state) == Some(OFF) then 0 else 1
      ensures NewDocuments(old(published), runs)
      ensures forall i {:trigger published[i]} :: |old(published)| <= i < |published| ==> published[i].state == OFF
    {
      ghost var before := published;
      var raised := Publish(OFF, runs);
      if published != before {
        OneNewShows(before, published, runs);
      }
    }

    /** Every document so far shows the first runs or those of a poll, where every rank of a READY one reported itself. */
    ghost predicate AllShown(initial: seq<InstanceRun>, polls: seq<Poll>)
      reads this
    {
      ShownIn(published, initial, polls)
    }

    static ghost predicate ShownIn(documents: seq<Document>, initial: seq<InstanceRun>, polls: seq<Poll>) {
      forall i {:trigger documents[i]} :: 0 <= i < |documents| ==> ShownBy(documents[i], initial, polls)
    }

    static ghost predicate ShownBy(d: Document, initial: seq<InstanceRun>, polls: seq<Poll>) {
      || (d.state != READY && ShowsAll(d, initial))
      || exists k {:trigger polls[k]} ::
           0 <= k < |polls| && ShowsAll(d, polls[k].runs) && (d.state == READY ==> AllReport(polls[k].runs))
    }

    static lemma NewAreShown(before: seq<Document>, after: seq<Document>, initial: seq<InstanceRun>, polls: seq<Poll>, k: nat)
      requires ShownIn(before, initial, polls) && before <= after && k < |polls| && NewShow(before, after, polls[k].runs)
      ensures ShownIn(after, initial, polls)
    {
    }

    static lemma OthersAreShown(before: seq<Document>, after: seq<Document>, runs: seq<InstanceRun>,
                                initial: seq<InstanceRun>, polls: seq<Poll>)
      requires ShownIn(before, initial, polls) && before <= after && NewShow(before, after, runs)
      requires forall i {:trigger after[i]} :: |before| <= i < |after| ==> after[i].state != READY
      requires runs == initial || exists k {:trigger polls[k]} :: 0 <= k < |polls| && polls[k].runs == runs
      ensures ShownIn(after, initial, polls)
    {
    }

    /** The `for` loop over the active positions: exits are collected until one of them failed. */
    method CollectExits(poll: Poll, active: set<nat>) returns (rest: set<nat>, failed: Option<nat>)
      requires forall p :: p in active ==> p < worldSize
      ensures failed.Some? <==> Fails(active, poll)
      ensures failed.Some? ==> failed.value in active && failed.value in poll.exits && poll.exits[failed.value] != 0
      ensures failed.Some? ==> forall p :: p in active && p in poll.exits && p < failed.value ==> poll.exits[p] == 0
      ensures rest == active - (set p | p in poll.exits.Keys && (failed.Some? ==> p <= failed.value))
    {
      rest, failed := active, None;
      for position := 0 to worldSize
        invariant rest == active - (set p | p in poll.exits.Keys && p < position)
        invariant forall p :: p in active && p in poll.exits && p < position ==> poll.exits[p] == 0
      {
        if position in active && position in poll.exits {
          rest := rest - {position};
          if poll.exits[position] != 0 {
            failed := Some(position);
            return;
          }
        }
      }
    }

    /** What a turn that does not raise leaves: READY and then OFF are published when they are due. */
    static predicate Turned(was: State, failed: bool, poll: Poll, now: Option<State>, reason: Option<string>, more: int) {
      var ready := was == READY || AllReport(poll.runs);
      && reason == (if failed then Some("exited") else if ready then poll.health else None)
      && now == Some(if reason.Some? then OFF else if ready then READY else STARTING)
      && more == (if ready && was == STARTING then 1 else 0) + (if reason.Some? then 1 else 0)
    }

    /** `refresh`, and then the verdict on the turn. */
    method React(poll: Poll, failed: bool) returns (raised: bool, aborted: bool)
      requires Valid() && (state == Some(STARTING) || state == Some(READY)) && abortReason.None?
      requires WellFormed(poll.runs) && |poll.runs| == worldSize && Started(poll.runs)
      modifies this, publisher
      ensures Valid() && old(published) <= published && NewDocuments(old(published), poll.runs)
      ensures raised <==> old(state) == Some(STARTING) && AllReport(poll.runs) && !NonzeroUuids(poll.runs)
      ensures raised ==> state == old(state) && published == old(published) && abortReason.None?
      ensures !raised ==>
                && Turned(old(state.value), failed, poll, state, abortReason, |published| - |old(published)|)
                && aborted == abortReason.Some?
    {
      aborted := false;
      raised := Refresh(poll.runs);
      if !raised {
        ghost var refreshed := published;
        aborted := Judge(poll, failed);
        NewTogether(old(published), refreshed, published, poll.runs);
      }
    }

    /** One turn of the poll loop; `stop` is how the loop is left. */
    method Turn(poll: Poll, active: set<nat>) returns (rest: set<nat>, raised: bool, stop: bool)
      requires Valid() && (state == Some(STARTING) || state == Some(READY)) && abortReason.None?
      requires WellFormed(poll.runs) && |poll.runs| == worldSize && Started(poll.runs)
      requires forall p :: p in active ==> p < worldSize
      modifies this, publisher
      ensures Valid() && old(published) <= published && NewDocuments(old(published), poll.runs)
      ensures raised <==> old(state) == Some(STARTING) && AllReport(poll.runs) && !NonzeroUuids(poll.runs)
      ensures raised ==> stop && state == old(state) && published == old(published) && abortReason.None?
      ensures !raised ==>
                && Turned(old(state.value), Fails(active, poll), poll, state, abortReason,
                          |published| - |old(published)|)
                && (stop <==> abortReason.Some? || poll.deadlinePassed)
      ensures !stop ==> rest == active - poll.exits.Keys
    {
      var failed, aborted;
      rest, failed := CollectExits(poll, active);
      assert failed.None? ==> rest == active - poll.exits.Keys;
      raised, aborted := React(poll, failed.Some?);
      stop := raised || aborted || poll.deadlinePassed;
    }

    static lemma NewTogether(before: seq<Document>, between: seq<Document>, after: seq<Document>, runs: seq<InstanceRun>)
      requires before <= between <= after && NewShow(before, between, runs) && NewShow(between, after, runs)
      ensures NewShow(before, after, runs)
    {
    }

    /** The group is aborted when a worker has failed or, once it is READY, when it is not healthy. */
    method Judge(poll: Poll, failed: bool) returns (aborted: bool)
      requires Valid() && (state == Some(STARTING) || state == Some(READY)) && abortReason.None?
      requires WellFormed(poll.runs) && |poll.runs| == worldSize
      modifies this, publisher
      ensures Valid() && old(published) <= published && NewDocuments(old(published), poll.runs)
      ensures abortReason == (if failed then Some("exited") else if old(state) == Some(READY) then poll.health else None)
      ensures aborted == abortReason.Some?
      ensures state == (if aborted then Some(OFF) else old(state))
      ensures |published| == |old(published)| + if aborted then 1 else 0
    {
      var reason := if failed then Some("exited") else if state == Some(READY) then poll.health else None;
      aborted := reason.Some?;
      if aborted {
        Abort(poll.runs, reason.value);
      }
    }

    /**
     `_run_phase` with a group registry.  A start that raises, an interrupt
     after the last poll and a document that fails validation all lead to the
     final OFF.
     */
    method RunPhase(initial: seq<InstanceRun>, allStarted: bool, polls: seq<Poll>) returns (raised: bool, turns: nat)
      requires Valid() && state.None? && abortReason.None?
      requires WellFormed(initial) && |initial| == worldSize && (allStarted ==> Started(initial))
      requires forall k :: 0 <= k < |polls| ==>
                 WellFormed(polls[k].runs) && |polls[k].runs| == worldSize && Started(polls[k].runs)
      modifies this, publisher
      ensures Valid() && AllShown(initial, polls)
      ensures published != [] && published[|published| - 1].state == OFF
      ensures published[0].state == STARTING <==> allStarted
      ensures !allStarted ==> raised && turns == 0 && |published| == 1
      ensures allStarted ==> LastsFor(worldSize, polls, turns) && (raised <==> Raised(polls, turns))
      ensures allStarted ==> |published| == if ReadyBy(polls, turns) && !raised then 3 else 2
      ensures allStarted ==> abortReason == ReasonAfter(worldSize, polls, turns)
    {
      raised, turns := !allStarted, 0;
      var runs := initial;
      if allStarted {
        ghost var before := published;
        var none := Publish(STARTING, runs);
        OneNewShows(before, published, runs);
        OthersAreShown(before, published, runs, initial, polls);
        raised, turns := PollLoop(initial, polls);
        runs := if turns == 0 then initial else polls[turns - 1].runs;
      }
      PublishOff(runs, initial, polls);
    }

    /** The publication in the `finally` clause. */
    method PublishOff(runs: seq<InstanceRun>, ghost initial: seq<InstanceRun>, ghost polls: seq<Poll>)
      requires Valid() && WellFormed(runs) && |runs| == worldSize && AllShown(initial, polls)
      requires runs == initial || exists k {:trigger polls[k]} :: 0 <= k < |polls| && polls[k].runs == runs
      modifies this`state, this`published, publisher
      ensures Valid() && old(published) <= published && AllShown(initial, polls)
      ensures published != [] && published[|published| - 1].state == OFF
      ensures |published| == |old(published)| + if old(state) == Some(OFF) then 0 else 1
    {
      ghost var before := published;
      PublishEnd(runs);
      OthersAreShown(before, published, runs, initial, polls);
    }

    /** Where the session is after so many turns. */
    ghost predicate Looped(polls: seq<Poll>, turns: nat, raised: bool)
      requires turns <= |polls|
      reads this
    {
      && (raised <==> Raised(polls, turns))
      && abortReason == ReasonAfter(worldSize, polls, turns)
      && state == (if abortReason.Some? then Some(OFF)
                   else if ReadyBy(polls, turns) && !raised then Some(READY) else Some(STARTING))
      && |published| == 1 + (if ReadyBy(polls, turns) && !raised then 1 else 0) + (if abortReason.Some? then 1 else 0)
    }

    lemma ReadyByNow(polls: seq<Poll>, turns: nat)
      requires turns < |polls|
      ensures ReadyBy(polls, turns + 1) <==> ReadyBy(polls, turns) || AllReport(polls[turns].runs)
    {
    }

    /** The turn that is due, told by the polls so far. */
    method TurnAt(polls: seq<Poll>, turns: nat, active: set<nat>) returns (rest: set<nat>, raised: bool, stop: bool)
      requires Valid() && turns < |polls| && active == ActiveAt(worldSize, polls, turns)
      requires Looped(polls, turns, false) && (turns > 0 ==> !StopsAt(worldSize, polls, turns - 1))
      requires WellFormed(polls[turns].runs) && |polls[turns].runs| == worldSize && Started(polls[turns].runs)
      modifies this, publisher
      ensures Valid() && old(published) <= published && NewDocuments(old(published), polls[turns].runs)
      ensures Looped(polls, turns + 1, raised) && (stop <==> StopsAt(worldSize, polls, turns)) && (raised ==> stop)
      ensures !stop ==> rest == ActiveAt(worldSize, polls, turns + 1)
    {
      ReadyByNow(polls, turns);
      assert abortReason.None?;
      rest, raised, stop := Turn(polls[turns], active);
    }

    /** The `while active` loop. */
    method PollLoop(ghost initial: seq<InstanceRun>, polls: seq<Poll>) returns (raised: bool, turns: nat)
      requires Valid() && state == Some(STARTING) && |published| == 1 && abortReason.None?
      requires AllShown(initial, polls)
      requires forall k :: 0 <= k < |polls| ==>
                 WellFormed(polls[k].runs) && |polls[k].runs| == worldSize && Started(polls[k].runs)
      modifies this, publisher
      ensures Valid() && old(published) <= published && AllShown(initial, polls)
      ensures LastsFor(worldSize, polls, turns) && Looped(polls, turns, raised)
    {
      var active: set<nat> := ActiveAt(worldSize, polls, 0);
      var stop := false;
      raised, turns := false, 0;
      while active != {} && turns < |polls| && !stop
        invariant turns <= |polls| && (raised ==> stop)
        invariant !stop ==> active == ActiveAt(worldSize, polls, turns)
        invariant GoesOn(worldSize, polls, turns)
        invariant stop <==> turns > 0 && StopsAt(worldSize, polls, turns - 1)
        invariant Valid() && old(published) <= published && AllShown(initial, polls)
        invariant Looped(polls, turns, raised)
        decreases |polls| - turns
      {
        ghost var before := published;
        GoesOnOnce(worldSize, polls, turns);
        active, raised, stop := TurnAt(polls, turns, active);
        NewAreShown(before, published, initial, polls, turns);
        turns := turns + 1;
      }
    }
  }
}
