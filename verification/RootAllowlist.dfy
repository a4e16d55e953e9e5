/**
 What the root allowlist of a journal binds.  `prepare-root` compares it with the
 names git lists for the index against HEAD; the list leaves out the sources of
 renames, and the commit that is finalized is a child of the previous root.
 */
module RootAllowlist {
  import opened Git
  import opened PosixPath
  import opened Transaction
  import opened Wrappers

  /**
   No hidden path is in the previous root, and wherever else HEAD has left the
   previous root, the index has left them both.
   */
  predicate Overwrites(previous: Tree, head: Tree, index: Tree, hidden: set<Path>) {
    && (forall p :: p in hidden ==> p !in previous)
    && (forall p :: p in Changed(previous, head) && p !in hidden ==>
          p in Changed(previous, index) && p in Changed(head, index))
  }

  /** The listed changes from HEAD are the changes from the previous root exactly then. */
  lemma SameChanges(previous: Tree, head: Tree, index: Tree, hidden: set<Path>)
    requires hidden <= head.Keys - index.Keys
    ensures Changed(previous, index) == Changed(head, index) - hidden <==> Overwrites(previous, head, index, hidden)
  {
    if Overwrites(previous, head, index, hidden) {
      forall p
        ensures p in Changed(previous, index) <==> p in Changed(head, index) - hidden
      {
        if p !in Changed(previous, head) {
          assert EntryAt(previous, p) == EntryAt(head, p);
        }
      }
    }
    if Changed(previous, index) == Changed(head, index) - hidden {
      forall p | p in hidden
        ensures p !in previous
      {
        assert p !in Changed(previous, index);
      }
      forall p | p in Changed(previous, head) && p !in hidden
        ensures p in Changed(previous, index) && p in Changed(head, index)
      {
        assert p in Changed(previous, index) || p in Changed(head, index);
      }
    }
  }

  /** The active or the retired journal of this name. */
  predicate Holds(c: Control, checkpoint: nat, j: Journal) {
    || (checkpoint in c.active && c.active[checkpoint] == j)
    || (checkpoint in c.retired && c.retired[checkpoint] == j)
  }

  /** The journal carries the plan that `prepare-root` made of this repository. */
  predicate PreparedFrom(j: Journal, repo: Repository) {
    j.expectedTree == Some(repo.index) && j.allowlist == StagedNames(repo)
  }

  predicate SamePlan(i: Journal, j: Journal) {
    && i.phase != PREPARE && i.previousRoot == j.previousRoot
    && i.expectedTree == j.expectedTree && i.allowlist == j.allowlist
  }

  /** The journal had its plan before the command, which has not touched it. */
  ghost predicate HadPlan(c: Control, checkpoint: nat, j: Journal) {
    exists i :: Holds(c, checkpoint, i) && SamePlan(i, j)
  }

  /** Marking and retiring the active journal keeps its plan, wherever they stop. */
  lemma MarkingKeepsPlans(c: Control, k: nat, m: Journal, checkpoint: nat, j: Journal)
    requires k in c.active && SamePlan(c.active[k], m) && j.phase != PREPARE
    requires || Holds(Store(c, k, m), checkpoint, j)
             || Holds(Retire(Store(c, k, m), k).control, checkpoint, j)
             || Holds(Store(c, k, m).(retired := c.retired[k := m]), checkpoint, j)
    ensures HadPlan(c, checkpoint, j)
  {
    assert Holds(c, k, c.active[k]);
    assert Holds(c, checkpoint, j) || (checkpoint == k && j == m);
    assert Holds(c, checkpoint, j) ==> SamePlan(j, j);
  }

  /** The three endings of finalize, told from its checks. */
  lemma CheckedKeepsPlans(c: Control, repo: Repository, k: nat, at: string, checked: Result<Journal, Error>, d: Control,
                          checkpoint: nat, j: Journal)
    requires checked.Success? ==> k in c.active && checked.value == c.active[k] && c.active[k].phase != PREPARE
    requires || d == Finished(c, repo, k, at, checked).control
             || d == Unmoved(c, repo, k, at, checked)
             || d == BothNames(c, repo, k, at, checked)
    requires Holds(d, checkpoint, j) && j.phase != PREPARE
    ensures HadPlan(c, checkpoint, j)
  {
    if checked.Success? {
      var m := Committed(c.active[k], repo, at);
      assert SamePlan(c.active[k], m);
      MarkingKeepsPlans(c, k, m, checkpoint, j);
    } else {
      assert Holds(c, checkpoint, j) && SamePlan(j, j);
    }
  }

  lemma FinalizeKeepsPlans(c: Control, repo: Repository, command: Command, checkpoint: nat, j: Journal)
    requires SoundControl(c)
    requires command.FinalizeCommand? || command.FinalizeUnmoved? || command.FinalizeBothNames?
    requires Holds(Execute(c, repo, command), checkpoint, j) && j.phase != PREPARE
    ensures HadPlan(c, checkpoint, j)
  {
    var k := command.checkpoint;
    var checked := FinalizeChecks(c, repo, k);
    if checked.Success? {
      ChecksSay(c, repo, k);
    }
    CheckedKeepsPlans(c, repo, k, command.committedAt, checked, Execute(c, repo, command), checkpoint, j);
  }

  /** The other commands store journals that have no plan yet. */
  ghost predicate DraftsAtMost(c: Control, d: Control) {
    d == c || exists k, m: Journal :: m.phase == PREPARE && d == Store(c, k, m)
  }

  lemma BeginDrafts(c: Control, repo: Repository, k: nat, participants: seq<Participant>, roots: seq<string>)
    ensures DraftsAtMost(c, OrUnchanged(c, Begin(c, repo, k, participants, roots)))
  {
    var r := Begin(c, repo, k, participants, roots);
    if r.Success? {
      var m := Begun(repo, k, ReadParticipants(participants).value, ReadRootPaths(roots).value);
      assert m.phase == PREPARE && r.value == Store(c, k, m);
    }
  }

  lemma DeclareRootDrafts(c: Control, repo: Repository, k: nat, roots: seq<string>)
    ensures DraftsAtMost(c, OrUnchanged(c, DeclareRoot(c, k, roots)))
  {
    var r := DeclareRoot(c, k, roots);
    if r.Success? {
      var m := c.active[k].(allowlist := ReadRootPaths(roots).value);
      assert m.phase == PREPARE && r.value == Store(c, k, m);
    }
  }

  lemma DraftCommands(c: Control, repo: Repository, command: Command)
    requires command.BeginCommand? || command.DeclareRootCommand?
    ensures DraftsAtMost(c, Execute(c, repo, command))
  {
    match command
    case BeginCommand(k, participants, roots) =>
      BeginDrafts(c, repo, k, participants, roots);
    case DeclareRootCommand(k, roots) =>
      DeclareRootDrafts(c, repo, k, roots);
  }

  lemma ChildCommands(c: Control, repo: Repository, command: Command)
    requires SoundControl(c)
    requires command.DeclareChildCommand? || command.RecordChildCommand?
    ensures DraftsAtMost(c, Execute(c, repo, command))
  {
    var k := command.checkpoint;
    match command
    case DeclareChildCommand(_, id, rawPath, target) =>
      DeclareChildDrafts(c, repo, k, id, rawPath, target);
    case RecordChildCommand(_, id, rawPath, identity) =>
      if RecordChild(c, repo, k, id, rawPath, identity).Success? {
        RecordChildStores(c, repo, k, id, rawPath, identity);
      }
  }

  lemma DeclareChildDrafts(c: Control, repo: Repository, k: nat, id: Id, rawPath: string, target: Option<Identity>)
    requires SoundControl(c)
    ensures DraftsAtMost(c, OrUnchanged(c, DeclareChild(c, repo, k, id, rawPath, target)))
  {
    var r := DeclareChild(c, repo, k, id, rawPath, target);
    if r.Success? {
      var j := c.active[k];
      assert WithInitialChildren(repo, j) == j;
      var m := if j.declared[id].target.Some? then j else Targeted(j, id, target);
      assert m.phase == PREPARE && r.value == Store(c, k, m);
    }
  }

  lemma DraftsKeepPlans(c: Control, d: Control, checkpoint: nat, j: Journal)
    requires DraftsAtMost(c, d) && Holds(d, checkpoint, j) && j.phase != PREPARE
    ensures HadPlan(c, checkpoint, j)
  {
    assert Holds(c, checkpoint, j) && SamePlan(j, j);
  }

  lemma PrepareMakesPlan(c: Control, repo: Repository, k: nat, checkpoint: nat, j: Journal)
    requires SoundControl(c) && j.phase != PREPARE
    requires Holds(OrUnchanged(c, PrepareRoot(c, repo, k)), checkpoint, j)
    ensures HadPlan(c, checkpoint, j) || (k == checkpoint && PreparedFrom(j, repo))
  {
    assert Holds(c, checkpoint, j) ==> SamePlan(j, j);
    if PrepareRoot(c, repo, k).Success? {
      PrepareRootEvolves(c, repo, k);
      AllowlistAtPrepare(c, repo, k);
    }
  }

  /** A journal gets its plan from a successful `prepare-root` and from nothing else. */
  lemma PlansComeFromPrepareRoot(c: Control, repo: Repository, command: Command, checkpoint: nat, j: Journal)
    requires SoundControl(c) && Holds(Execute(c, repo, command), checkpoint, j) && j.phase != PREPARE
    ensures HadPlan(c, checkpoint, j) || (command == PrepareRootCommand(checkpoint) && PreparedFrom(j, repo))
  {
    if command.PrepareRootCommand? {
      PrepareMakesPlan(c, repo, command.checkpoint, checkpoint, j);
    } else if command.FinalizeCommand? || command.FinalizeUnmoved? || command.FinalizeBothNames? {
      FinalizeKeepsPlans(c, repo, command, checkpoint, j);
    } else {
      if command.DeclareChildCommand? || command.RecordChildCommand? {
        ChildCommands(c, repo, command);
      } else {
        DraftCommands(c, repo, command);
      }
      DraftsKeepPlans(c, Execute(c, repo, command), checkpoint, j);
    }
  }

  lemma AllowlistAtPrepare(c: Control, prepared: Repository, checkpoint: nat)
    requires SoundControl(c) && PrepareRoot(c, prepared, checkpoint).Success?
    ensures c.active[checkpoint].allowlist == StagedNames(prepared)
  {
  }

  /** Step n is the `prepare-root` that made the journal's plan. */
  predicate PreparedAt(steps: seq<Step>, n: nat, checkpoint: nat, j: Journal) {
    n < |steps| && steps[n].command == PrepareRootCommand(checkpoint) && PreparedFrom(j, steps[n].repo)
  }

  lemma PlanStep(c: Control, repo: Repository, command: Command, d: Control, checkpoint: nat, j: Journal)
    requires SoundControl(c) && d == Execute(c, repo, command) && Holds(d, checkpoint, j) && j.phase != PREPARE
    ensures HadPlan(c, checkpoint, j) || (command == PrepareRootCommand(checkpoint) && PreparedFrom(j, repo))
  {
    PlansComeFromPrepareRoot(c, repo, command, checkpoint, j);
  }

  lemma {:induction false} PlannedAt(steps: seq<Step>, checkpoint: nat, j: Journal) returns (n: nat)
    requires Holds(Run(steps), checkpoint, j) && j.phase != PREPARE
    ensures PreparedAt(steps, n, checkpoint, j)
  {
    var init := steps[..|steps| - 1];
    var last := steps[|steps| - 1];
    RunsAreSound(init);
    var c := Run(init);
    PlanStep(c, last.repo, last.command, Run(steps), checkpoint, j);
    if HadPlan(c, checkpoint, j) {
      var i :| Holds(c, checkpoint, i) && SamePlan(i, j);
      n := PlannedAt(init, checkpoint, i);
    } else {
      n := |steps| - 1;
    }
  }

  /** The commit of the journal changes exactly the paths of its allowlist. */
  predicate ListsItsChanges(j: Journal) {
    j.coordinator.Some? && Changed(j.previousRoot.tree, j.coordinator.value.tree) == j.allowlist
  }

  /** What holds of the repository that `prepare-root` finds. */
  predicate OverwritesAt(previous: Tree, repo: Repository) {
    Overwrites(previous, repo.head.tree, repo.index, RenameSources(repo))
  }

  /**
   In every run, whatever happens to git between the commands, a committed
   journal's commit changes exactly the allowed paths if and only if, at the
   `prepare-root` that made its plan, no path that git took for the source of a
   rename was in the previous root, and the index overwrote every other path in
   which HEAD had left the previous root.
   */
  lemma AllowlistBinds(steps: seq<Step>, checkpoint: nat, j: Journal) returns (n: nat)
    requires Holds(Run(steps), checkpoint, j) && j.phase == COMMITTED
    ensures PreparedAt(steps, n, checkpoint, j)
    ensures ListsItsChanges(j) <==> OverwritesAt(j.previousRoot.tree, steps[n].repo)
  {
    n := PlannedAt(steps, checkpoint, j);
    RunsAreSound(steps);
    assert Sound(j);
    var repo := steps[n].repo;
    SameChanges(j.previousRoot.tree, repo.head.tree, repo.index, RenameSources(repo));
  }

  /** An allowlist of exactly the changes from the previous root is accepted only then. */
  lemma HonestAllowlist(c: Control, repo: Repository, checkpoint: nat)
    requires SoundControl(c) && PrepareRoot(c, repo, checkpoint).Success?
    ensures var j := c.active[checkpoint];
            j.allowlist == Changed(j.previousRoot.tree, repo.index) <==> OverwritesAt(j.previousRoot.tree, repo)
  {
    AllowlistAtPrepare(c, repo, checkpoint);
    SameChanges(c.active[checkpoint].previousRoot.tree, repo.head.tree, repo.index, RenameSources(repo));
  }

  // ----- Every plan occurs -----

  /**
   A transaction with one participant, on any previous root, that prepares any
   index beside any HEAD with any renames.
   */
  datatype Plan = Plan(
    last: nat,
    start: Commit,
    id: Id,
    raw: string,
    path: Path,
    initial: Option<Identity>,
    child: Identity,
    roots: seq<string>,
    head: Commit,
    index: Tree,
    renamed: set<Path>)
  {
    /** The participant is new, or at the identity that the previous root has. */
    predicate Starts() {
      match initial
      case None => path !in start.tree && !exists q :: q in start.tree && path <= q
      case Some(i) => path in start.tree && start.tree[path] == TreeEntry(GITLINK, i.head)
    }

    /** What `begin`, `record-child` and `prepare-root` check of such a transaction. */
    predicate Suits() {
      && last < 9999 && start.message.checkpoints == [last]
      && ChildPath(raw) == Success(path) && ValidId(id) && Starts()
      && EntryAt(index, path) == Some(TreeEntry(GITLINK, child.head))
      && ChangedProjects(start.tree, index) == {path}
      && Names() != {} && ReadRootPaths(roots) == Success(Names())
    }

    function Names(): set<Path> {
      StagedNames(AtPrepare())
    }

    function Known(): map<ObjectId, ObjectId> {
      if initial.Some? then map[initial.value.head := initial.value.tree] else map[]
    }

    function AtStart(): map<Path, ChildRepository> {
      if initial.Some? then map[path := ChildRepository(initial.value.head, true, Known())] else map[]
    }

    function Children(): map<Path, ChildRepository> {
      map[path := ChildRepository(child.head, true, Known()[child.head := child.tree])]
    }

    /** The workspace at `begin`, while the child is recorded, when the root is prepared, and after the commit. */
    function AtBegin(): Repository {
      Repository(start, start.tree, {}, true, AtStart(), last, true)
    }

    function AtRecord(): Repository {
      AtBegin().(children := Children())
    }

    function AtPrepare(): Repository {
      Repository(head, index, renamed, true, Children(), last + 1, true)
    }

    function AtFinalize(): Repository {
      Repository(Child(start, index, Message(true, [last + 1])), index, {}, true, Children(), last + 1, true)
    }

    function Initially(): Initial {
      if initial.Some? then Present(initial.value) else Absent
    }

    function AtOnce(): Journal {
      Journal(last + 1, PREPARE, start, true, map[id := Declaration(path, None, Initially())], map[], Names(), None, None,
              "")
    }

    function WithRecord(): Journal {
      AtOnce().(recorded := map[id := Record(path, child)])
    }

    function WithPlan(): Journal {
      WithRecord().(phase := PREPARED, expectedTree := Some(index))
    }

    function Finished(at: string): Journal {
      WithPlan().(phase := COMMITTED, coordinator := Some(AtFinalize().head), committedAt := at)
    }

    /** The directory with this journal active and nothing retired. */
    function Active(j: Journal): Control {
      Control(map[last + 1 := j], map[])
    }

    function Steps(at: string): seq<Step> {
      [Step(AtBegin(), BeginCommand(last + 1, [Participant(id, raw, None)], roots)),
       Step(AtRecord(), RecordChildCommand(last + 1, id, raw, child)),
       Step(AtPrepare(), PrepareRootCommand(last + 1)),
       Step(AtFinalize(), FinalizeCommand(last + 1, at))]
    }
  }

  lemma PlanBegins(s: Plan)
    requires s.Suits() && (s.initial.Some? ==> s.initial.value.head != s.child.head)
    ensures Begin(Control(map[], map[]), s.AtBegin(), s.last + 1, [Participant(s.id, s.raw, None)], s.roots)
         == Success(s.Active(s.AtOnce()))
  {
    ReadsOne(s);
    var declared := map[s.id := Declaration(s.path, None, Missing)];
    assert InitialIdentity(s.AtBegin(), s.start, s.path) == Success(s.Initially());
    assert StartsClean(s.AtBegin(), s.path);
    assert AllStartClean(s.AtBegin(), declared);
    assert Begun(s.AtBegin(), s.last + 1, declared, s.Names()).declared == s.AtOnce().declared;
  }

  lemma ReadsOne(s: Plan)
    requires s.Suits()
    ensures ReadParticipants([Participant(s.id, s.raw, None)]) == Success(map[s.id := Declaration(s.path, None, Missing)])
  {
    var ps := [Participant(s.id, s.raw, None)];
    var none: map<Id, Declaration> := map[];
    assert ps[..0] == [];
    assert AddParticipant(none, ps[0]) == Success(none[s.id := Declaration(s.path, None, Missing)]);
    assert ReadParticipants(ps[..0]) == Success(none);
  }

  /** The participant changes, because the index is a change of projects. */
  lemma ParticipantMoves(s: Plan)
    requires s.Suits()
    ensures s.initial.Some? ==> s.initial.value.head != s.child.head
    ensures IsChildPath(s.path)
  {
    assert s.path in ChangedProjects(s.start.tree, s.index);
  }

  /** Filling in initial identities changes nothing in these journals. */
  lemma PlanSettles(s: Plan, j: Journal, repo: Repository)
    requires s.Suits() && j.declared == s.AtOnce().declared && j.previousRoot == s.start
    requires repo.children == s.Children()
    ensures InitialChildrenAgree(repo, j) && WithInitialChildren(repo, j) == j
  {
    ParticipantMoves(s);
    assert InitialIdentity(repo, s.start, s.path) == Success(s.Initially());
    assert s.id in j.declared;
  }

  lemma PlanRecords(s: Plan)
    requires s.Suits()
    ensures RecordChild(s.Active(s.AtOnce()), s.AtRecord(), s.last + 1, s.id, s.raw, s.child)
         == Success(s.Active(s.WithRecord()))
  {
    var j := s.AtOnce();
    PlanSettles(s, j, s.AtRecord());
    assert s.id in j.declared && j.declared[s.id].path == s.path;
    assert ChildMatches(s.AtRecord(), s.path, s.child);
    assert Noted(j, s.id, Record(s.path, s.child)) == s.WithRecord();
    StoreActive(s, j, s.WithRecord());
  }

  lemma PlanPublishes(s: Plan, j: Journal)
    requires s.Suits() && j.declared == s.AtOnce().declared
    ensures DeclaredPaths(j) == {s.path} && GitlinksMatch(s.start.tree, s.index, DeclaredPaths(j))
  {
    ParticipantMoves(s);
    assert j.declared[s.id].path == s.path;
  }

  lemma PlanIsStaged(s: Plan)
    requires s.Suits()
    ensures RecordsStaged(s.AtPrepare(), s.WithRecord())
  {
  }

  lemma StoreActive(s: Plan, j: Journal, k: Journal)
    ensures Store(s.Active(j), s.last + 1, k) == s.Active(k)
  {
  }

  lemma PlanPrepares(s: Plan)
    requires s.Suits()
    ensures PrepareRoot(s.Active(s.WithRecord()), s.AtPrepare(), s.last + 1) == Success(s.Active(s.WithPlan()))
  {
    var j := s.WithRecord();
    assert j.declared.Keys == j.recorded.Keys;
    StoreActive(s, j, s.WithPlan());
    PlanSettles(s, j, s.AtPrepare());
    PlanPublishes(s, j);
    PlanIsStaged(s);
  }

  lemma PlanIsInPlace(s: Plan)
    requires s.Suits()
    ensures CommitInPlace(s.AtFinalize(), s.WithPlan())
  {
    PlanSettles(s, s.WithPlan(), s.AtFinalize());
  }

  lemma PlanFinalizes(s: Plan, at: string)
    requires s.Suits() && SoundControl(s.Active(s.WithPlan()))
    ensures Finalize(s.Active(s.WithPlan()), s.AtFinalize(), s.last + 1, at).control
         == Control(map[], map[s.last + 1 := s.Finished(at)])
  {
    PlanIsInPlace(s);
    ChecksPass(s.Active(s.WithPlan()), s.AtFinalize(), s.last + 1);
    PlanRetires(s, at, FinalizeChecks(s.Active(s.WithPlan()), s.AtFinalize(), s.last + 1));
  }

  lemma PlanRetires(s: Plan, at: string, checked: Result<Journal, Error>)
    requires checked == Success(s.WithPlan())
    ensures Finished(s.Active(s.WithPlan()), s.AtFinalize(), s.last + 1, at, checked).control
         == Control(map[], map[s.last + 1 := s.Finished(at)])
  {
    assert Store(s.Active(s.WithPlan()), s.last + 1, s.Finished(at)).active - {s.last + 1} == map[];
  }

  lemma RunStep(steps: seq<Step>, n: nat)
    requires n < |steps|
    ensures Run(steps[..n + 1]) == Execute(Run(steps[..n]), steps[n].repo, steps[n].command)
  {
    assert steps[..n + 1][..n] == steps[..n];
  }

  lemma RecordIs(c: Control, repo: Repository, checkpoint: nat, id: Id, raw: string, child: Identity)
    ensures Execute(c, repo, RecordChildCommand(checkpoint, id, raw, child))
         == OrUnchanged(c, RecordChild(c, repo, checkpoint, id, raw, child))
  {
  }

  lemma RunsRecord(steps: seq<Step>, n: nat, repo: Repository, checkpoint: nat, id: Id, raw: string, child: Identity,
                   c: Control, d: Control)
    requires n < |steps| && steps[n] == Step(repo, RecordChildCommand(checkpoint, id, raw, child)) && Run(steps[..n]) == c
    requires RecordChild(c, repo, checkpoint, id, raw, child) == Success(d)
    ensures Run(steps[..n + 1]) == d
  {
    RecordIs(c, repo, checkpoint, id, raw, child);
    RunStep(steps, n);
  }

  lemma PrepareIs(c: Control, repo: Repository, checkpoint: nat)
    ensures Execute(c, repo, PrepareRootCommand(checkpoint)) == OrUnchanged(c, PrepareRoot(c, repo, checkpoint))
  {
  }

  lemma RunsPrepare(steps: seq<Step>, n: nat, repo: Repository, checkpoint: nat, c: Control, d: Control)
    requires n < |steps| && steps[n] == Step(repo, PrepareRootCommand(checkpoint)) && Run(steps[..n]) == c
    requires PrepareRoot(c, repo, checkpoint) == Success(d)
    ensures Run(steps[..n + 1]) == d
  {
    PrepareIs(c, repo, checkpoint);
    RunStep(steps, n);
  }

  lemma FinalizeIs(c: Control, repo: Repository, checkpoint: nat, at: string)
    ensures Execute(c, repo, FinalizeCommand(checkpoint, at)) == Finalize(c, repo, checkpoint, at).control
  {
  }

  lemma RunsFinalize(steps: seq<Step>, n: nat, repo: Repository, checkpoint: nat, at: string, c: Control, d: Control)
    requires n < |steps| && steps[n] == Step(repo, FinalizeCommand(checkpoint, at)) && Run(steps[..n]) == c
    requires Finalize(c, repo, checkpoint, at).control == d
    ensures Run(steps[..n + 1]) == d
  {
    FinalizeIs(c, repo, checkpoint, at);
    RunStep(steps, n);
  }

  lemma BeginIs(c: Control, repo: Repository, checkpoint: nat, participants: seq<Participant>, roots: seq<string>)
    ensures Execute(c, repo, BeginCommand(checkpoint, participants, roots))
         == OrUnchanged(c, Begin(c, repo, checkpoint, participants, roots))
  {
  }

  lemma RunsBegin(steps: seq<Step>, repo: Repository, checkpoint: nat, participants: seq<Participant>,
                  roots: seq<string>, d: Control)
    requires |steps| > 0 && steps[0] == Step(repo, BeginCommand(checkpoint, participants, roots))
    requires Begin(Control(map[], map[]), repo, checkpoint, participants, roots) == Success(d)
    ensures Run(steps[..1]) == d
  {
    BeginIs(Control(map[], map[]), repo, checkpoint, participants, roots);
    RunStep(steps, 0);
  }

  lemma PlanRunBegins(s: Plan, steps: seq<Step>)
    requires s.Suits() && |steps| > 0
    requires steps[0] == Step(s.AtBegin(), BeginCommand(s.last + 1, [Participant(s.id, s.raw, None)], s.roots))
    ensures Run(steps[..1]) == s.Active(s.AtOnce())
  {
    PlanBegins(s);
    RunsBegin(steps, s.AtBegin(), s.last + 1, [Participant(s.id, s.raw, None)], s.roots, s.Active(s.AtOnce()));
  }

  lemma PlanRunRecords(s: Plan, steps: seq<Step>)
    requires s.Suits() && |steps| > 1 && Run(steps[..1]) == s.Active(s.AtOnce())
    requires steps[1] == Step(s.AtRecord(), RecordChildCommand(s.last + 1, s.id, s.raw, s.child))
    ensures Run(steps[..2]) == s.Active(s.WithRecord())
  {
    PlanRecords(s);
    RunsRecord(steps, 1, s.AtRecord(), s.last + 1, s.id, s.raw, s.child, s.Active(s.AtOnce()), s.Active(s.WithRecord()));
  }

  lemma PlanRunPrepares(s: Plan, steps: seq<Step>)
    requires s.Suits() && |steps| > 2 && Run(steps[..2]) == s.Active(s.WithRecord())
    requires steps[2] == Step(s.AtPrepare(), PrepareRootCommand(s.last + 1))
    ensures Run(steps[..3]) == s.Active(s.WithPlan())
  {
    PlanPrepares(s);
    RunsPrepare(steps, 2, s.AtPrepare(), s.last + 1, s.Active(s.WithRecord()), s.Active(s.WithPlan()));
  }

  lemma PlanRunFinalizes(s: Plan, steps: seq<Step>, at: string)
    requires s.Suits() && |steps| > 3 && Run(steps[..3]) == s.Active(s.WithPlan())
    requires steps[3] == Step(s.AtFinalize(), FinalizeCommand(s.last + 1, at))
    ensures Run(steps[..4]) == Control(map[], map[s.last + 1 := s.Finished(at)])
  {
    RunsAreSound(steps[..3]);
    PlanFinalizes(s, at);
    RunsFinalize(steps, 3, s.AtFinalize(), s.last + 1, at, s.Active(s.WithPlan()),
                 Control(map[], map[s.last + 1 := s.Finished(at)]));
  }

  lemma PlanRuns(s: Plan, at: string)
    requires s.Suits()
    ensures Run(s.Steps(at)) == Control(map[], map[s.last + 1 := s.Finished(at)])
  {
    var steps := s.Steps(at);
    PlanRunBegins(s, steps);
    PlanRunRecords(s, steps);
    PlanRunPrepares(s, steps);
    PlanRunFinalizes(s, steps, at);
    assert steps[..4] == steps;
  }

  /** The run of the plan commits the index, with the listed names for its allowlist. */
  ghost predicate Occurs(s: Plan, at: string) {
    var j := s.Finished(at);
    && Run(s.Steps(at)) == Control(map[], map[s.last + 1 := j]) && j.phase == COMMITTED
    && j.previousRoot == s.start && j.allowlist == StagedNames(s.AtPrepare())
    && j.coordinator.value.tree == s.index
  }

  /**
   So every previous root, HEAD, index and renames occur with every participant,
   and the changes of the commit are the allowed ones exactly when the condition
   holds.
   */
  lemma EveryPlanOccurs(s: Plan, at: string)
    requires s.Suits()
    ensures Occurs(s, at)
    ensures ListsItsChanges(s.Finished(at)) <==> OverwritesAt(s.start.tree, s.AtPrepare())
  {
    PlanRuns(s, at);
    SameChanges(s.start.tree, s.head.tree, s.index, RenameSources(s.AtPrepare()));
  }

  /** One changed path outside the list is enough. */
  lemma UnlistedChange(s: Plan, at: string, p: Path)
    requires s.Suits() && p in Changed(s.start.tree, s.index) && p !in s.Names()
    ensures Occurs(s, at) && !ListsItsChanges(s.Finished(at))
  {
    EveryPlanOccurs(s, at);
  }

  // ----- Two ways in which the condition fails -----

  /** The plan of a new participant on a root without projects. */
  function NewParticipant(
      last: nat, start: Commit, id: Id, name: string, child: Identity, roots: seq<string>, head: Commit, index: Tree,
      renamed: set<Path>): Plan
  {
    Plan(last, start, id, "projects" + "/" + name, ["projects", name], None, child, roots, head, index, renamed)
  }

  predicate PlainName(name: string) {
    '/' !in name && name != "" && name != "." && name != ".."
  }

  /** A previous root without projects. */
  predicate Unclaimed(t: Tree) {
    forall p :: p in t ==> !UnderProjects(p)
  }

  /**
   HEAD gains a file between `begin` and `prepare-root`: the file is committed,
   and an allowlist of the participant alone is accepted.
   */
  lemma StrayFileIsCommitted(
      last: nat, start: Commit, id: Id, name: string, child: Identity, roots: seq<string>, file: Path, entry: TreeEntry,
      message: Message, at: string) returns (s: Plan)
    requires last < 9999 && start.message.checkpoints == [last] && Unclaimed(start.tree)
    requires ValidId(id) && PlainName(name) && ReadRootPaths(roots) == Success({["projects", name]})
    requires !UnderProjects(file) && EntryAt(start.tree, file) != Some(entry)
    ensures s.Suits() && s.start == start && s.head.tree == start.tree[file := entry] && s.renamed == {}
    ensures Occurs(s, at) && !ListsItsChanges(s.Finished(at))
    ensures file !in s.Names() && file in Changed(start.tree, s.index)
  {
    var ahead := start.tree[file := entry];
    var index := ahead[["projects", name] := TreeEntry(GITLINK, child.head)];
    s := NewParticipant(last, start, id, name, child, roots, Child(start, ahead, message), index, {});
    StrayPlanSuits(s, file, entry);
    UnlistedChange(s, at, file);
  }

  lemma NewParticipantStarts(s: Plan)
    requires Unclaimed(s.start.tree) && s.initial == None
    requires |s.path| == 2 && s.path[0] == "projects" && PlainName(s.path[1]) && s.raw == "projects" + "/" + s.path[1]
    ensures ChildPath(s.raw) == Success(s.path) && s.Starts()
    ensures UnderProjects(s.path) && s.path !in s.start.tree
  {
    SplitsInTwo("projects", s.path[1]);
    assert s.path == ["projects", s.path[1]];
  }

  lemma StrayPlanSuits(s: Plan, file: Path, entry: TreeEntry)
    requires s.last < 9999 && s.start.message.checkpoints == [s.last] && Unclaimed(s.start.tree)
    requires ValidId(s.id) && s.initial == None && s.renamed == {}
    requires |s.path| == 2 && s.path[0] == "projects" && PlainName(s.path[1]) && s.raw == "projects" + "/" + s.path[1]
    requires !UnderProjects(file) && EntryAt(s.start.tree, file) != Some(entry)
    requires s.head.tree == s.start.tree[file := entry]
    requires s.index == s.head.tree[s.path := TreeEntry(GITLINK, s.child.head)]
    requires ReadRootPaths(s.roots) == Success({s.path})
    ensures s.Suits() && s.Names() == {s.path} && file in Changed(s.start.tree, s.index) && file != s.path
  {
    NewParticipantStarts(s);
    assert s.Names() == {s.path};
    assert ChangedProjects(s.start.tree, s.index) == {s.path};
  }

  /** The root with a file moved and a participant added. */
  function Moved(t: Tree, source: Path, target: Path, path: Path, entry: TreeEntry): Tree
    requires source in t
  {
    (t - {source})[target := t[source]][path := entry]
  }

  lemma MoveChanges(t: Tree, source: Path, target: Path, path: Path, entry: TreeEntry)
    requires source in t && target !in t && path !in t && target != path
    ensures Changed(t, Moved(t, source, target, path, entry)) == {source, target, path}
  {
  }

  /**
   HEAD is the previous root, and git takes the move of a file for a rename: the
   file is deleted by the commit, and an allowlist that does not name it is
   accepted.
   */
  lemma RenamedFileIsDeleted(
      last: nat, start: Commit, id: Id, name: string, child: Identity, roots: seq<string>, source: Path, target: Path,
      at: string) returns (s: Plan)
    requires last < 9999 && start.message.checkpoints == [last] && Unclaimed(start.tree)
    requires ValidId(id) && PlainName(name)
    requires source in start.tree && target !in start.tree && !UnderProjects(target)
    requires ReadRootPaths(roots) == Success({target, ["projects", name]})
    ensures s.Suits() && s.start == start && s.head == start && s.renamed == {source}
    ensures Occurs(s, at) && !ListsItsChanges(s.Finished(at))
    ensures source !in s.Names() && source !in s.index && source in Changed(start.tree, s.index)
  {
    var path := ["projects", name];
    var index := Moved(start.tree, source, target, path, TreeEntry(GITLINK, child.head));
    s := NewParticipant(last, start, id, name, child, roots, start, index, {source});
    MovePlanSuits(s, source, target);
    UnlistedChange(s, at, source);
  }

  lemma MovePlanSuits(s: Plan, source: Path, target: Path)
    requires s.last < 9999 && s.start.message.checkpoints == [s.last] && Unclaimed(s.start.tree)
    requires ValidId(s.id) && s.initial == None && s.head == s.start && s.renamed == {source}
    requires |s.path| == 2 && s.path[0] == "projects" && PlainName(s.path[1]) && s.raw == "projects" + "/" + s.path[1]
    requires source in s.start.tree && target !in s.start.tree && !UnderProjects(target)
    requires s.index == Moved(s.start.tree, source, target, s.path, TreeEntry(GITLINK, s.child.head))
    requires ReadRootPaths(s.roots) == Success({target, s.path})
    ensures s.Suits() && Changed(s.start.tree, s.index) == {source, target, s.path} && s.Names() == {target, s.path}
    ensures source != target && source != s.path
  {
    NewParticipantStarts(s);
    MoveChanges(s.start.tree, source, target, s.path, TreeEntry(GITLINK, s.child.head));
    assert ChangedProjects(s.start.tree, s.index) == {s.path};
    assert RenameSources(s.AtPrepare()) == {source};
    assert s.Names() == {target, s.path};
  }

  lemma SplitsInTwo(prefix: string, name: string)
    requires '/' !in prefix && prefix != "" && prefix != "."
    requires '/' !in name && name != "" && name != "."
    ensures Parts(Split(prefix + "/" + name)) == [prefix, name]
  {
    SplitPlain(prefix);
    SplitPlain(name);
    SplitConcat(prefix, name);
    KeepsParts([prefix, name]);
  }
}
