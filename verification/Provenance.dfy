/**
 Where the content of a journal comes from.  Whatever a run has done, every field
 of a committed journal was given to one of its commands, and was true of the
 repositories when that command ran.
 */
module Provenance {
  import PosixPath
  import opened Git
  import opened Transaction
  import opened Wrappers
  import R = RootAllowlist

  // ----- What a command saw -----

  /** The components that a relative path spells, "." and empty ones apart. */
  predicate Spells(raw: string, path: Path) {
    && (raw == "" || raw[0] != '/')
    && PosixPath.Parts(PosixPath.Split(raw)) == path && ".." !in path
  }

  predicate SpellsChild(raw: string, path: Path) {
    Spells(raw, path) && |path| == 2 && path[0] == "projects"
  }

  /** The child repository is clean at this commit, which has this tree. */
  predicate CleanAt(repo: Repository, path: Path, identity: Identity) {
    && path in repo.children
    && repo.children[path].clean && repo.children[path].head == identity.head
    && identity.head in repo.children[path].trees && repo.children[path].trees[identity.head] == identity.tree
  }

  /** Nothing is staged, changed or untracked. */
  predicate NothingPending(repo: Repository) {
    repo.index == repo.head.tree && repo.worktreeClean
  }

  /** The participant is a child that sits at its gitlink in HEAD, or is not there at all. */
  predicate StartedAt(repo: Repository, d: Declaration) {
    if d.path in repo.head.tree then
      && repo.head.tree[d.path].mode == GITLINK
      && d.initial.Present? && d.initial.identity.head == repo.head.tree[d.path].oid
      && CleanAt(repo, d.path, d.initial.identity)
    else
      && d.initial.Absent? && d.path !in repo.children
      && forall q :: q in repo.head.tree ==> !(d.path <= q)
  }

  /** The journal has this participant, and the target that was given with it. */
  predicate Enrolled(j: Journal, p: Participant) {
    && p.id in j.declared && ValidId(p.id) && SpellsChild(p.rawPath, j.declared[p.id].path)
    && (p.target.Some? ==> j.declared[p.id].target == p.target)
  }

  predicate DistinctIds(ps: seq<Participant>) {
    forall i, k :: 0 <= i < k < |ps| ==> ps[i].id != ps[k].id
  }

  predicate HasId(ps: seq<Participant>, id: Id) {
    exists i :: 0 <= i < |ps| && ps[i].id == id
  }

  /** An accepted root without pending changes, whose checkpoint is the one before this. */
  predicate Beginnable(repo: Repository, checkpoint: nat) {
    && NothingPending(repo) && repo.accepted
    && checkpoint == repo.checkpoint + 1 && checkpoint <= 9999 && repo.head.message.checkpoints == [repo.checkpoint]
  }

  /** The participants of the journal are those of the command, each as it was in HEAD. */
  ghost predicate BegunBy(step: Step, checkpoint: nat, j: Journal) {
    && step.command.BeginCommand? && step.command.checkpoint == checkpoint && Beginnable(step.repo, checkpoint)
    && j.checkpoint == checkpoint && j.previousRoot == step.repo.head
    && EnrolledAll(step.command.participants, j) && StartedAll(step.repo, j)
  }

  /** The journal as `begin` has just written it. */
  ghost predicate Begins(step: Step, checkpoint: nat, j: Journal) {
    && BegunBy(step, checkpoint, j)
    && j.phase == PREPARE && j.recorded == map[] && ReadRootPaths(step.command.roots) == Success(j.allowlist)
    && TargetsOf(step.command.participants, j.declared)
  }

  predicate TargetsOf(ps: seq<Participant>, declared: map<Id, Declaration>) {
    forall i :: 0 <= i < |ps| ==> ps[i].id in declared && declared[ps[i].id].target == ps[i].target
  }

  ghost predicate EnrolledAll(ps: seq<Participant>, j: Journal) {
    && ps != [] && DistinctIds(ps)
    && (forall i :: 0 <= i < |ps| ==> Enrolled(j, ps[i]))
    && (forall id :: id in j.declared ==> HasId(ps, id))
  }

  ghost predicate StartedAll(repo: Repository, j: Journal) {
    forall id :: id in j.declared ==> StartedAt(repo, j.declared[id])
  }

  predicate RecordedBy(step: Step, checkpoint: nat, id: Id, record: Record) {
    && step.command.RecordChildCommand? && step.command.checkpoint == checkpoint && step.command.id == id
    && SpellsChild(step.command.rawPath, record.path) && step.command.identity == record.identity
    && CleanAt(step.repo, record.path, record.identity)
  }

  predicate ChildrenClean(repo: Repository, j: Journal) {
    forall id :: id in j.recorded ==> CleanAt(repo, j.recorded[id].path, j.recorded[id].identity)
  }

  predicate PreparedBy(step: Step, checkpoint: nat, j: Journal) {
    && step.command == PrepareRootCommand(checkpoint) && R.PreparedFrom(j, step.repo)
    && step.repo.worktreeClean && ChildrenClean(step.repo, j)
  }

  predicate IsFinalize(command: Command, checkpoint: nat, at: string) {
    || command == FinalizeCommand(checkpoint, at)
    || command == FinalizeUnmoved(checkpoint, at)
    || command == FinalizeBothNames(checkpoint, at)
  }

  predicate FinalizedBy(step: Step, checkpoint: nat, j: Journal) {
    && IsFinalize(step.command, checkpoint, j.committedAt)
    && j.coordinator == Some(step.repo.head)
    && step.repo.head.message.wellFormed && step.repo.head.message.checkpoints == [checkpoint]
    && step.repo.checkpoint == checkpoint && NothingPending(step.repo) && step.repo.accepted
    && ChildrenClean(step.repo, j)
  }

  // ----- begin -----

  lemma ReadsChild(raw: string)
    requires ChildPath(raw).Success?
    ensures SpellsChild(raw, ChildPath(raw).value)
  {
  }

  lemma AddsOne(before: map<Id, Declaration>, p: Participant)
    requires DistinctPaths(before) && AddParticipant(before, p).Success?
    ensures p.id !in before && ValidId(p.id)
    ensures var d := Declaration(ChildPath(p.rawPath).value, p.target, Missing);
            && AddParticipant(before, p) == Success(before[p.id := d]) && SpellsChild(p.rawPath, d.path)
  {
    ReadsChild(p.rawPath);
  }

  lemma ReadsOneMore(ps: seq<Participant>) returns (before: map<Id, Declaration>, d: Declaration)
    requires ps != [] && ReadParticipants(ps).Success?
    ensures ReadParticipants(ps[..|ps| - 1]) == Success(before)
    ensures ReadParticipants(ps).value == before[ps[|ps| - 1].id := d] && ps[|ps| - 1].id !in before
    ensures ValidId(ps[|ps| - 1].id) && d.target == ps[|ps| - 1].target && SpellsChild(ps[|ps| - 1].rawPath, d.path)
  {
    before := ReadParticipants(ps[..|ps| - 1]).value;
    d := Declaration(ChildPath(ps[|ps| - 1].rawPath).value, ps[|ps| - 1].target, Missing);
    AddsOne(before, ps[|ps| - 1]);
  }

  predicate ReadFrom(declared: map<Id, Declaration>, p: Participant) {
    && p.id in declared && ValidId(p.id)
    && declared[p.id].target == p.target && SpellsChild(p.rawPath, declared[p.id].path)
  }

  /** The declarations are those of these participants. */
  ghost predicate ReadFromAll(declared: map<Id, Declaration>, ps: seq<Participant>) {
    && DistinctIds(ps)
    && (forall i :: 0 <= i < |ps| ==> ReadFrom(declared, ps[i]))
    && (forall id :: id in declared ==> HasId(ps, id))
  }

  /** Every participant that `begin` is given is read, with its path and its target, and no other. */
  lemma {:induction false} ReadsAll(ps: seq<Participant>)
    requires ReadParticipants(ps).Success?
    ensures ReadFromAll(ReadParticipants(ps).value, ps)
  {
    if ps != [] {
      var before, d := ReadsOneMore(ps);
      ReadsAll(ps[..|ps| - 1]);
      OneMore(ps[..|ps| - 1], ps[|ps| - 1], before, d);
      InitAndLast(ps);
    }
  }

  lemma InitAndLast<T>(s: seq<T>)
    requires s != []
    ensures s[..|s| - 1] + [s[|s| - 1]] == s
  {
  }

  lemma OneMore(init: seq<Participant>, last: Participant, before: map<Id, Declaration>, d: Declaration)
    requires last.id !in before && ReadFrom(map[last.id := d], last) && ReadFromAll(before, init)
    ensures ReadFromAll(before[last.id := d], init + [last])
  {
    var ps, after := init + [last], before[last.id := d];
    forall i | 0 <= i < |init|
      ensures ReadFrom(after, ps[i]) && ps[i].id != last.id
    {
      assert ReadFrom(before, init[i]);
    }
    forall id | id in after
      ensures HasId(ps, id)
    {
      if id == last.id {
        assert ps[|init|].id == id;
      } else {
        var i :| 0 <= i < |init| && init[i].id == id;
        assert ps[i].id == id;
      }
    }
  }

  lemma StartsFound(repo: Repository, d: Declaration)
    requires StartsClean(repo, d.path)
    ensures StartedAt(repo, d.(initial := InitialIdentity(repo, repo.head, d.path).value))
  {
  }

  lemma BegunBegins(repo: Repository, checkpoint: nat, ps: seq<Participant>, roots: seq<string>,
                    declared: map<Id, Declaration>, allowlist: set<Path>)
    requires ReadFromAll(declared, ps) && declared != map[] && AllStartClean(repo, declared) && Beginnable(repo, checkpoint)
    requires ReadRootPaths(roots) == Success(allowlist)
    ensures Begins(Step(repo, BeginCommand(checkpoint, ps, roots)), checkpoint, Begun(repo, checkpoint, declared, allowlist))
  {
    var j := Begun(repo, checkpoint, declared, allowlist);
    EnrolsAll(ps, declared, j);
    forall id | id in j.declared
      ensures StartedAt(repo, j.declared[id])
    {
      StartsFound(repo, declared[id]);
    }
  }

  lemma BeginWrites(repo: Repository, checkpoint: nat, ps: seq<Participant>, roots: seq<string>, c: Control)
    requires Begin(c, repo, checkpoint, ps, roots).Success?
    ensures ReadParticipants(ps).Success? && ReadRootPaths(roots).Success? && AllStartClean(repo, ReadParticipants(ps).value)
    ensures var j := Begun(repo, checkpoint, ReadParticipants(ps).value, ReadRootPaths(roots).value);
            && Begin(c, repo, checkpoint, ps, roots) == Success(Store(c, checkpoint, j))
            && Begins(Step(repo, BeginCommand(checkpoint, ps, roots)), checkpoint, j)
  {
    ReadsAll(ps);
    BegunBegins(repo, checkpoint, ps, roots, ReadParticipants(ps).value, ReadRootPaths(roots).value);
  }

  lemma EnrolsAll(ps: seq<Participant>, declared: map<Id, Declaration>, j: Journal)
    requires ReadFromAll(declared, ps) && declared != map[] && j.declared.Keys == declared.Keys
    requires forall id :: id in declared ==>
               j.declared[id].path == declared[id].path && j.declared[id].target == declared[id].target
    ensures EnrolledAll(ps, j) && TargetsOf(ps, j.declared)
  {
    var id :| id in declared;
    assert HasId(ps, id);
    forall i | 0 <= i < |ps|
      ensures Enrolled(j, ps[i])
    {
      assert ReadFrom(declared, ps[i]);
    }
  }

  // ----- What one command does to a journal -----

  predicate TargetedBy(step: Step, checkpoint: nat, id: Id, d: Declaration) {
    && step.command.DeclareChildCommand? && step.command.checkpoint == checkpoint && step.command.id == id
    && SpellsChild(step.command.rawPath, d.path) && step.command.target == d.target
  }

  predicate AllowedBy(step: Step, checkpoint: nat, allowlist: set<Path>) {
    && step.command.DeclareRootCommand? && step.command.checkpoint == checkpoint
    && ReadRootPaths(step.command.roots) == Success(allowlist)
  }

  /** Records, targets and the allowlist are new only where the command gave them. */
  ghost predicate DraftedBy(step: Step, checkpoint: nat, i: Journal, j: Journal) {
    && (forall id :: id in j.recorded && id !in i.recorded ==> RecordedBy(step, checkpoint, id, j.recorded[id]))
    && (forall id :: id in j.declared && id in i.declared && j.declared[id] != i.declared[id] ==>
          i.declared[id].target == None && TargetedBy(step, checkpoint, id, j.declared[id]))
    && (j.allowlist != i.allowlist ==> AllowedBy(step, checkpoint, j.allowlist))
  }

  /** Journal `i` has become `j` by this command, or not changed. */
  ghost predicate StepFrom(step: Step, checkpoint: nat, i: Journal, j: Journal) {
    && Evolves(i, j)
    && DraftedBy(step, checkpoint, i, j)
    && (i.phase != PREPARE && i.phase == j.phase ==> i == j)
    && (i.phase != j.phase ==> i.declared == j.declared && i.recorded == j.recorded && i.allowlist == j.allowlist)
    && (i.phase == PREPARE && j.phase != PREPARE ==> j.phase == PREPARED && PreparedBy(step, checkpoint, j))
    && (i.phase != COMMITTED && j.phase == COMMITTED ==> i.phase == PREPARED && FinalizedBy(step, checkpoint, j))
  }

  ghost predicate Came(c: Control, step: Step, checkpoint: nat, j: Journal) {
    exists i :: R.Holds(c, checkpoint, i) && StepFrom(step, checkpoint, i, j)
  }

  lemma Unchanged(c: Control, step: Step, checkpoint: nat, j: Journal)
    requires R.Holds(c, checkpoint, j)
    ensures Came(c, step, checkpoint, j)
  {
    assert StepFrom(step, checkpoint, j, j);
  }

  /** A command that stores one later state of the active journal. */
  lemma StoredCame(c: Control, step: Step, k: nat, m: Journal, d: Control, checkpoint: nat, j: Journal)
    requires k in c.active && StepFrom(step, k, c.active[k], m) && R.Holds(d, checkpoint, j)
    requires || d == Store(c, k, m)
             || d == AfterRetiring(c, k, m)
             || d == Store(c, k, m).(retired := c.retired[k := m])
    ensures Came(c, step, checkpoint, j)
  {
    if R.Holds(c, checkpoint, j) {
      Unchanged(c, step, checkpoint, j);
    } else {
      assert checkpoint == k && j == m;
      assert R.Holds(c, k, c.active[k]);
    }
  }

  function AfterRetiring(c: Control, k: nat, m: Journal): Control {
    Retire(Store(c, k, m), k).control
  }

  /** What `declare-child` stores: the journal as it is, or with a first target. */
  predicate GainsTarget(step: Step, j: Journal, m: Journal) {
    && step.command.DeclareChildCommand?
    && var id, target := step.command.id, step.command.target;
       && id in j.declared && SpellsChild(step.command.rawPath, j.declared[id].path)
       && (m == j || (j.declared[id].target.None? && m == Targeted(j, id, target)))
  }

  lemma DeclareChildStores(c: Control, step: Step) returns (m: Journal)
    requires SoundControl(c) && step.command.DeclareChildCommand?
    requires DeclareChild(c, step.repo, step.command.checkpoint, step.command.id, step.command.rawPath, step.command.target).Success?
    ensures var k := step.command.checkpoint;
            && k in c.active && c.active[k].phase == PREPARE && GainsTarget(step, c.active[k], m)
            && Execute(c, step.repo, step.command) == Store(c, k, m)
  {
    var k, id := step.command.checkpoint, step.command.id;
    var j := c.active[k];
    ReadsChild(step.command.rawPath);
    SoundIsSettled(step.repo, j);
    m := if j.declared[id].target.Some? then j else Targeted(j, id, step.command.target);
  }

  lemma GainedTargetSteps(step: Step, j: Journal, m: Journal)
    requires j.phase == PREPARE && GainsTarget(step, j, m)
    ensures StepFrom(step, step.command.checkpoint, j, m)
  {
    var id := step.command.id;
    if m != j {
      TargetedEvolves(j, id, step.command.target);
      assert m.declared[id].path == j.declared[id].path;
    }
  }

  lemma DeclareChildSteps(c: Control, step: Step)
    requires SoundControl(c) && step.command.DeclareChildCommand?
    requires DeclareChild(c, step.repo, step.command.checkpoint, step.command.id, step.command.rawPath, step.command.target).Success?
    ensures var k := step.command.checkpoint;
            k in c.active && exists m :: StepFrom(step, k, c.active[k], m) && Execute(c, step.repo, step.command) == Store(c, k, m)
  {
    var m := DeclareChildStores(c, step);
    GainedTargetSteps(step, c.active[step.command.checkpoint], m);
  }

  lemma DeclareRootSteps(c: Control, step: Step)
    requires SoundControl(c) && step.command.DeclareRootCommand?
    requires DeclareRoot(c, step.command.checkpoint, step.command.roots).Success?
    ensures var k := step.command.checkpoint;
            k in c.active && exists m :: StepFrom(step, k, c.active[k], m) && Execute(c, step.repo, step.command) == Store(c, k, m)
  {
    var k := step.command.checkpoint;
    var m := c.active[k].(allowlist := ReadRootPaths(step.command.roots).value);
    assert StepFrom(step, k, c.active[k], m);
  }

  lemma RecordChildSteps(c: Control, step: Step)
    requires SoundControl(c) && step.command.RecordChildCommand?
    requires RecordChild(c, step.repo, step.command.checkpoint, step.command.id, step.command.rawPath, step.command.identity).Success?
    ensures var k := step.command.checkpoint;
            k in c.active && exists m :: StepFrom(step, k, c.active[k], m) && Execute(c, step.repo, step.command) == Store(c, k, m)
  {
    var k, id, identity := step.command.checkpoint, step.command.id, step.command.identity;
    RecordChildStores(c, step.repo, k, id, step.command.rawPath, identity);
    RecordsClean(c, step.repo, k, id, step.command.rawPath, identity);
    var j := c.active[k];
    var record := Record(j.declared[id].path, identity);
    NotedEvolves(j, id, record);
    assert StepFrom(step, k, j, Noted(j, id, record));
  }

  lemma RecordsClean(c: Control, repo: Repository, checkpoint: nat, id: Id, raw: string, identity: Identity)
    requires SoundControl(c) && RecordChild(c, repo, checkpoint, id, raw, identity).Success?
    ensures checkpoint in c.active && id in c.active[checkpoint].declared
    ensures var path := c.active[checkpoint].declared[id].path; SpellsChild(raw, path) && CleanAt(repo, path, identity)
  {
    ReadsChild(raw);
    SoundIsSettled(repo, c.active[checkpoint]);
  }

  lemma PrepareRootSteps(c: Control, step: Step)
    requires SoundControl(c) && step.command.PrepareRootCommand?
    requires PrepareRoot(c, step.repo, step.command.checkpoint).Success?
    ensures var k := step.command.checkpoint;
            k in c.active && exists m :: StepFrom(step, k, c.active[k], m) && Execute(c, step.repo, step.command) == Store(c, k, m)
  {
    var k := step.command.checkpoint;
    PrepareRootEvolves(c, step.repo, k);
    PreparesClean(c, step.repo, k);
    assert StepFrom(step, k, c.active[k], Prepared(c.active[k], step.repo.index));
  }

  lemma PreparesClean(c: Control, repo: Repository, checkpoint: nat)
    requires SoundControl(c) && PrepareRoot(c, repo, checkpoint).Success?
    ensures checkpoint in c.active && c.active[checkpoint].phase == PREPARE
    ensures c.active[checkpoint].allowlist == StagedNames(repo)
    ensures repo.worktreeClean && ChildrenClean(repo, c.active[checkpoint])
  {
    SoundIsSettled(repo, c.active[checkpoint]);
    R.AllowlistAtPrepare(c, repo, checkpoint);
  }

  // ----- finalize -----

  lemma RefusesNothing(c: Control, repo: Repository, checkpoint: nat, j: Journal)
    requires Refusal(c, repo, checkpoint, j).None?
    ensures repo.head.message.wellFormed && repo.head.message.checkpoints == [checkpoint] && repo.checkpoint == checkpoint
    ensures NothingPending(repo) && repo.accepted && ChildrenClean(repo, j)
  {
  }

  lemma ChecksFind(c: Control, repo: Repository, checkpoint: nat)
    requires SoundControl(c) && FinalizeChecks(c, repo, checkpoint).Success?
    ensures checkpoint in c.active && Finalizable(c.active[checkpoint], repo)
    ensures FinalizeChecks(c, repo, checkpoint) == Success(c.active[checkpoint])
    ensures repo.head.message.wellFormed && repo.head.message.checkpoints == [checkpoint] && repo.checkpoint == checkpoint
    ensures NothingPending(repo) && repo.accepted && ChildrenClean(repo, c.active[checkpoint])
  {
    ChecksSay(c, repo, checkpoint);
    RefusesNothing(c, repo, checkpoint, c.active[checkpoint]);
  }

  lemma FinalizeSteps(c: Control, step: Step, at: string)
    requires SoundControl(c) && IsFinalize(step.command, step.command.checkpoint, at)
    requires FinalizeChecks(c, step.repo, step.command.checkpoint).Success?
    ensures var k := step.command.checkpoint;
            k in c.active && StepFrom(step, k, c.active[k], Committed(c.active[k], step.repo, at))
  {
    var k := step.command.checkpoint;
    ChecksFind(c, step.repo, k);
    MarkedEvolves(c.active[k], step.repo, at);
  }

  /** The three endings of finalize. */
  lemma FinalizeLeaves(c: Control, step: Step, at: string)
    requires SoundControl(c) && IsFinalize(step.command, step.command.checkpoint, at)
    ensures var k, d := step.command.checkpoint, Execute(c, step.repo, step.command);
            || d == c
            || (&& FinalizeChecks(c, step.repo, k).Success? && k in c.active
                && var m := Committed(c.active[k], step.repo, at);
                   || d == Store(c, k, m) || d == AfterRetiring(c, k, m)
                   || d == Store(c, k, m).(retired := c.retired[k := m]))
  {
    var k := step.command.checkpoint;
    if FinalizeChecks(c, step.repo, k).Success? {
      ChecksFind(c, step.repo, k);
    }
    EndingsOf(c, step.repo, k, at, FinalizeChecks(c, step.repo, k));
  }

  lemma EndingsOf(c: Control, repo: Repository, k: nat, at: string, checked: Result<Journal, Error>)
    requires checked.Success? ==> k in c.active && checked.value == c.active[k]
    ensures checked.Failure? ==>
              && Finished(c, repo, k, at, checked).control == c
              && Unmoved(c, repo, k, at, checked) == c && BothNames(c, repo, k, at, checked) == c
    ensures checked.Success? ==>
              var m := Committed(c.active[k], repo, at);
              && Finished(c, repo, k, at, checked).control == AfterRetiring(c, k, m)
              && Unmoved(c, repo, k, at, checked) == Store(c, k, m)
              && (|| BothNames(c, repo, k, at, checked) == Store(c, k, m)
                  || BothNames(c, repo, k, at, checked) == Store(c, k, m).(retired := c.retired[k := m]))
  {
  }

  // ----- Every command -----

  ghost predicate Stores(c: Control, step: Step, d: Control) {
    || d == c
    || (var k := step.command.checkpoint;
        k in c.active && exists m ::
          && StepFrom(step, k, c.active[k], m)
          && (|| d == Store(c, k, m) || d == AfterRetiring(c, k, m)
              || d == Store(c, k, m).(retired := c.retired[k := m])))
  }

  lemma CommandStores(c: Control, step: Step)
    requires SoundControl(c) && !step.command.BeginCommand?
    ensures Stores(c, step, Execute(c, step.repo, step.command))
  {
    var repo := step.repo;
    match step.command
    case BeginCommand(_, _, _) =>
    case DeclareChildCommand(k, id, raw, target) =>
      if DeclareChild(c, repo, k, id, raw, target).Success? {
        DeclareChildSteps(c, step);
      }
    case DeclareRootCommand(k, roots) =>
      if DeclareRoot(c, k, roots).Success? {
        DeclareRootSteps(c, step);
      }
    case RecordChildCommand(k, id, raw, identity) =>
      if RecordChild(c, repo, k, id, raw, identity).Success? {
        RecordChildSteps(c, step);
      }
    case PrepareRootCommand(k) =>
      if PrepareRoot(c, repo, k).Success? {
        PrepareRootSteps(c, step);
      }
    case FinalizeCommand(k, at) =>
      FinalizeStores(c, step, at);
    case FinalizeUnmoved(k, at) =>
      FinalizeStores(c, step, at);
    case FinalizeBothNames(k, at) =>
      FinalizeStores(c, step, at);
  }

  lemma FinalizeStores(c: Control, step: Step, at: string)
    requires SoundControl(c) && IsFinalize(step.command, step.command.checkpoint, at)
    ensures Stores(c, step, Execute(c, step.repo, step.command))
  {
    FinalizeLeaves(c, step, at);
    if FinalizeChecks(c, step.repo, step.command.checkpoint).Success? {
      FinalizeSteps(c, step, at);
    }
  }

  /** A journal is begun by the command, or was there before it and has made one step. */
  lemma HeldComesFrom(c: Control, step: Step, d: Control, checkpoint: nat, j: Journal)
    requires SoundControl(c) && d == Execute(c, step.repo, step.command) && R.Holds(d, checkpoint, j)
    ensures Came(c, step, checkpoint, j) || Begins(step, checkpoint, j)
  {
    if R.Holds(c, checkpoint, j) {
      Unchanged(c, step, checkpoint, j);
    } else if step.command.BeginCommand? {
      var k, ps, roots := step.command.checkpoint, step.command.participants, step.command.roots;
      R.BeginIs(c, step.repo, k, ps, roots);
      if Begin(c, step.repo, k, ps, roots).Success? {
        BeginWrites(step.repo, k, ps, roots, c);
      }
    } else {
      CommandStores(c, step);
      var k := step.command.checkpoint;
      var m :| StepFrom(step, k, c.active[k], m)
               && (|| d == Store(c, k, m) || d == AfterRetiring(c, k, m)
                   || d == Store(c, k, m).(retired := c.retired[k := m]));
      StoredCame(c, step, k, m, d, checkpoint, j);
    }
  }

  // ----- Runs -----

  /** The control directory after n steps. */
  type History = nat -> Control

  function HistoryOf(steps: seq<Step>): History {
    (n: nat) => Run(if n <= |steps| then steps[..n] else steps)
  }

  /** A journal that is held after the step was begun by it, or came from one that was held before. */
  ghost predicate Follows(c: Control, step: Step, d: Control, checkpoint: nat) {
    forall j :: R.Holds(d, checkpoint, j) ==> Came(c, step, checkpoint, j) || Begins(step, checkpoint, j)
  }

  ghost predicate FollowsAt(run: History, steps: seq<Step>, n: nat, checkpoint: nat)
    requires n < |steps|
  {
    Follows(run(n), steps[n], run(n + 1), checkpoint)
  }

  /** The first n steps start from nothing and follow each other. */
  ghost predicate Chain(run: History, steps: seq<Step>, n: nat, checkpoint: nat) {
    && n <= |steps| && (forall j :: !R.Holds(run(0), checkpoint, j))
    && forall m {:trigger FollowsAt(run, steps, m, checkpoint)} :: 0 <= m < n ==> FollowsAt(run, steps, m, checkpoint)
  }

  lemma StepFollows(c: Control, step: Step, d: Control, checkpoint: nat)
    requires SoundControl(c) && d == Execute(c, step.repo, step.command)
    ensures Follows(c, step, d, checkpoint)
  {
    forall j | R.Holds(d, checkpoint, j)
      ensures Came(c, step, checkpoint, j) || Begins(step, checkpoint, j)
    {
      HeldComesFrom(c, step, d, checkpoint, j);
    }
  }

  lemma RunFollows(steps: seq<Step>, n: nat, checkpoint: nat)
    requires n < |steps|
    ensures FollowsAt(HistoryOf(steps), steps, n, checkpoint)
  {
    var c, d := Run(steps[..n]), Run(steps[..n + 1]);
    RunsAreSound(steps[..n]);
    assert d == Execute(c, steps[n].repo, steps[n].command) by {
      R.RunStep(steps, n);
    }
    StepFollows(c, steps[n], d, checkpoint);
    assert HistoryOf(steps)(n) == c && HistoryOf(steps)(n + 1) == d;
  }

  lemma RunsAreChains(steps: seq<Step>, checkpoint: nat)
    ensures Chain(HistoryOf(steps), steps, |steps|, checkpoint)
    ensures HistoryOf(steps)(|steps|) == Run(steps)
  {
    var run := HistoryOf(steps);
    forall n {:trigger FollowsAt(run, steps, n, checkpoint)} | 0 <= n < |steps|
      ensures FollowsAt(run, steps, n, checkpoint)
    {
      RunFollows(steps, n, checkpoint);
    }
    assert steps[..|steps|] == steps && steps[..0] == [];
  }

  /** The step that made a chain hold this journal. */
  lemma LastOf(run: History, steps: seq<Step>, n: nat, checkpoint: nat, j: Journal)
    requires Chain(run, steps, n, checkpoint) && R.Holds(run(n), checkpoint, j)
    ensures n > 0 && Chain(run, steps, n - 1, checkpoint)
    ensures Came(run(n - 1), steps[n - 1], checkpoint, j) || Begins(steps[n - 1], checkpoint, j)
  {
    assert n > 0;
    assert FollowsAt(run, steps, n - 1, checkpoint);
  }

  lemma StillBegunBy(step: Step, checkpoint: nat, i: Journal, j: Journal)
    requires BegunBy(step, checkpoint, i) && Evolves(i, j)
    ensures BegunBy(step, checkpoint, j)
  {
    forall n | 0 <= n < |step.command.participants|
      ensures Enrolled(j, step.command.participants[n])
    {
      assert Enrolled(i, step.command.participants[n]);
    }
    forall id | id in j.declared
      ensures StartedAt(step.repo, j.declared[id])
    {
      assert StartedAt(step.repo, i.declared[id]);
    }
  }

  /** The state that an unbegun journal came from. */
  lemma Earlier(c: Control, step: Step, checkpoint: nat, j: Journal) returns (i: Journal)
    requires Came(c, step, checkpoint, j)
    ensures R.Holds(c, checkpoint, i) && Evolves(i, j)
  {
    i :| R.Holds(c, checkpoint, i) && StepFrom(step, checkpoint, i, j);
  }

  /** A record is older, or was made now. */
  lemma EarlierRecord(c: Control, step: Step, checkpoint: nat, j: Journal, id: Id) returns (i: Journal)
    requires (Came(c, step, checkpoint, j) || Begins(step, checkpoint, j)) && id in j.recorded
    ensures R.Holds(c, checkpoint, i) && Evolves(i, j)
    ensures if id in i.recorded then i.recorded[id] == j.recorded[id] else RecordedBy(step, checkpoint, id, j.recorded[id])
  {
    i :| R.Holds(c, checkpoint, i) && StepFrom(step, checkpoint, i, j);
  }

  /** A plan is older, or was made now of a draft with the same records. */
  lemma EarlierPlan(c: Control, step: Step, checkpoint: nat, j: Journal) returns (i: Journal)
    requires (Came(c, step, checkpoint, j) || Begins(step, checkpoint, j)) && j.phase != PREPARE
    ensures R.Holds(c, checkpoint, i) && Evolves(i, j)
    ensures if i.phase == PREPARE then i.recorded == j.recorded && PreparedBy(step, checkpoint, j)
            else i.recorded == j.recorded && (PreparedBy(step, checkpoint, i) ==> PreparedBy(step, checkpoint, j))
    ensures i.phase != PREPARE ==> i.allowlist == j.allowlist
  {
    i :| R.Holds(c, checkpoint, i) && StepFrom(step, checkpoint, i, j);
  }

  /** A mark is older, or was made now of a prepared journal. */
  lemma EarlierMark(c: Control, step: Step, checkpoint: nat, j: Journal) returns (i: Journal)
    requires (Came(c, step, checkpoint, j) || Begins(step, checkpoint, j)) && j.phase == COMMITTED
    ensures R.Holds(c, checkpoint, i) && Evolves(i, j) && i.recorded == j.recorded && i.allowlist == j.allowlist
    ensures i == j || (i.phase == PREPARED && FinalizedBy(step, checkpoint, j))
  {
    i :| R.Holds(c, checkpoint, i) && StepFrom(step, checkpoint, i, j);
  }

  predicate BegunWith(step: Step, checkpoint: nat, id: Id, target: Option<Identity>) {
    && step.command.BeginCommand? && step.command.checkpoint == checkpoint
    && exists n :: 0 <= n < |step.command.participants|
         && step.command.participants[n].id == id && step.command.participants[n].target == target
  }

  /** A target is older, or was declared now. */
  lemma EarlierTarget(c: Control, step: Step, checkpoint: nat, j: Journal, id: Id) returns (i: Journal)
    requires Came(c, step, checkpoint, j) && id in j.declared
    ensures R.Holds(c, checkpoint, i) && id in i.declared
    ensures i.declared[id] == j.declared[id] || TargetedBy(step, checkpoint, id, j.declared[id])
  {
    i :| R.Holds(c, checkpoint, i) && StepFrom(step, checkpoint, i, j);
  }

  lemma BegunTarget(step: Step, checkpoint: nat, j: Journal, id: Id)
    requires Begins(step, checkpoint, j) && id in j.declared
    ensures BegunWith(step, checkpoint, id, j.declared[id].target)
  {
    assert HasId(step.command.participants, id);
  }

  lemma StillPreparedBy(step: Step, checkpoint: nat, i: Journal, j: Journal)
    requires PreparedBy(step, checkpoint, i) && i.phase != PREPARE && Evolves(i, j) && i.allowlist == j.allowlist
    ensures PreparedBy(step, checkpoint, j)
  {
  }

  lemma {:induction false} BegunIn(run: History, steps: seq<Step>, n: nat, checkpoint: nat, j: Journal) returns (b: nat)
    requires Chain(run, steps, n, checkpoint) && R.Holds(run(n), checkpoint, j)
    ensures b < n && BegunBy(steps[b], checkpoint, j)
  {
    LastOf(run, steps, n, checkpoint, j);
    b := n - 1;
    if Came(run(b), steps[b], checkpoint, j) {
      var i := Earlier(run(b), steps[b], checkpoint, j);
      b := BegunIn(run, steps, b, checkpoint, i);
      StillBegunBy(steps[b], checkpoint, i, j);
    }
  }

  lemma {:induction false} RecordedIn(run: History, steps: seq<Step>, n: nat, checkpoint: nat, j: Journal, id: Id)
    returns (r: nat, i: Journal)
    requires Chain(run, steps, n, checkpoint) && R.Holds(run(n), checkpoint, j) && id in j.recorded
    ensures r < n && RecordedBy(steps[r], checkpoint, id, j.recorded[id])
    ensures Chain(run, steps, r, checkpoint) && R.Holds(run(r), checkpoint, i) && Evolves(i, j)
  {
    LastOf(run, steps, n, checkpoint, j);
    r := n - 1;
    i := EarlierRecord(run(r), steps[r], checkpoint, j, id);
    if id in i.recorded {
      var h := i;
      r, i := RecordedIn(run, steps, r, checkpoint, h, id);
      EvolvesTransitively(i, h, j);
    }
  }

  lemma {:induction false} TargetedIn(run: History, steps: seq<Step>, n: nat, checkpoint: nat, j: Journal, id: Id)
    returns (t: nat)
    requires Chain(run, steps, n, checkpoint) && R.Holds(run(n), checkpoint, j)
    requires id in j.declared && j.declared[id].target.Some?
    ensures t < n
    ensures TargetedBy(steps[t], checkpoint, id, j.declared[id]) || BegunWith(steps[t], checkpoint, id, j.declared[id].target)
  {
    LastOf(run, steps, n, checkpoint, j);
    t := n - 1;
    if Came(run(t), steps[t], checkpoint, j) {
      var i := EarlierTarget(run(t), steps[t], checkpoint, j, id);
      if i.declared[id] == j.declared[id] {
        t := TargetedIn(run, steps, t, checkpoint, i, id);
      }
    } else {
      BegunTarget(steps[t], checkpoint, j, id);
    }
  }

  lemma {:induction false} PlannedIn(run: History, steps: seq<Step>, n: nat, checkpoint: nat, j: Journal)
    returns (p: nat, i: Journal)
    requires Chain(run, steps, n, checkpoint) && R.Holds(run(n), checkpoint, j) && j.phase != PREPARE
    ensures p < n && PreparedBy(steps[p], checkpoint, j)
    ensures Chain(run, steps, p, checkpoint) && R.Holds(run(p), checkpoint, i)
    ensures i.phase == PREPARE && i.recorded == j.recorded && Evolves(i, j)
  {
    LastOf(run, steps, n, checkpoint, j);
    p := n - 1;
    i := EarlierPlan(run(p), steps[p], checkpoint, j);
    if i.phase != PREPARE {
      var h := i;
      p, i := PlannedIn(run, steps, p, checkpoint, h);
      EvolvesTransitively(i, h, j);
      StillPreparedBy(steps[p], checkpoint, h, j);
    }
  }

  lemma {:induction false} MarkedIn(run: History, steps: seq<Step>, n: nat, checkpoint: nat, j: Journal)
    returns (f: nat, i: Journal)
    requires Chain(run, steps, n, checkpoint) && R.Holds(run(n), checkpoint, j) && j.phase == COMMITTED
    ensures f < n && FinalizedBy(steps[f], checkpoint, j)
    ensures Chain(run, steps, f, checkpoint) && R.Holds(run(f), checkpoint, i) && i.phase == PREPARED
    ensures Evolves(i, j) && i.recorded == j.recorded && i.allowlist == j.allowlist
  {
    LastOf(run, steps, n, checkpoint, j);
    f := n - 1;
    i := EarlierMark(run(f), steps[f], checkpoint, j);
    if i == j {
      f, i := MarkedIn(run, steps, f, checkpoint, j);
    }
  }

  // ----- What every journal was made of -----

  /** Every journal was begun, with the participants and targets that its `begin` was given. */
  lemma BegunAt(steps: seq<Step>, checkpoint: nat, j: Journal) returns (b: nat)
    requires R.Holds(Run(steps), checkpoint, j)
    ensures b < |steps| && BegunBy(steps[b], checkpoint, j)
  {
    RunsAreChains(steps, checkpoint);
    b := BegunIn(HistoryOf(steps), steps, |steps|, checkpoint, j);
  }

  /** Every record was given to a `record-child` that found the child clean at it. */
  lemma RecordedAt(steps: seq<Step>, checkpoint: nat, j: Journal, id: Id) returns (r: nat)
    requires R.Holds(Run(steps), checkpoint, j) && id in j.recorded
    ensures r < |steps| && RecordedBy(steps[r], checkpoint, id, j.recorded[id])
  {
    RunsAreChains(steps, checkpoint);
    var i;
    r, i := RecordedIn(HistoryOf(steps), steps, |steps|, checkpoint, j, id);
  }

  /** Every target was given to `begin`, or later to a `declare-child`. */
  lemma TargetedAt(steps: seq<Step>, checkpoint: nat, j: Journal, id: Id) returns (t: nat)
    requires R.Holds(Run(steps), checkpoint, j) && id in j.declared && j.declared[id].target.Some?
    ensures t < |steps|
    ensures TargetedBy(steps[t], checkpoint, id, j.declared[id]) || BegunWith(steps[t], checkpoint, id, j.declared[id].target)
  {
    RunsAreChains(steps, checkpoint);
    t := TargetedIn(HistoryOf(steps), steps, |steps|, checkpoint, j, id);
  }

  /** The commit of the journal is a child of the root it began on, with the tree that was prepared. */
  predicate Commits(j: Journal, began: Repository, prepared: Repository, finalized: Repository) {
    && j.coordinator == Some(finalized.head) && finalized.head.Child?
    && finalized.head.parent == began.head && finalized.head.tree == prepared.index
  }

  /** The participant was recorded, where and as `begin` was told. */
  predicate Delivered(j: Journal, p: Participant) {
    && p.id in j.recorded && SpellsChild(p.rawPath, j.recorded[p.id].path)
    && (p.target.Some? ==> j.recorded[p.id].identity == p.target.value)
  }

  lemma AllDelivered(step: Step, checkpoint: nat, j: Journal)
    requires Sound(j) && j.phase == COMMITTED && BegunBy(step, checkpoint, j)
    ensures forall n :: 0 <= n < |step.command.participants| ==> Delivered(j, step.command.participants[n])
  {
    forall n | 0 <= n < |step.command.participants|
      ensures Delivered(j, step.command.participants[n])
    {
      assert Enrolled(j, step.command.participants[n]);
    }
  }

  lemma HistoryIn(run: History, steps: seq<Step>, checkpoint: nat, j: Journal, id: Id)
    returns (b: nat, r: nat, p: nat, f: nat)
    requires Chain(run, steps, |steps|, checkpoint) && R.Holds(run(|steps|), checkpoint, j)
    requires j.phase == COMMITTED && id in j.recorded
    ensures b < r < p < f < |steps|
    ensures BegunBy(steps[b], checkpoint, j) && RecordedBy(steps[r], checkpoint, id, j.recorded[id])
    ensures PreparedBy(steps[p], checkpoint, j) && FinalizedBy(steps[f], checkpoint, j)
  {
    var i, h, g;
    f, i := MarkedIn(run, steps, |steps|, checkpoint, j);
    p, h := PlannedIn(run, steps, f, checkpoint, i);
    StillPreparedBy(steps[p], checkpoint, i, j);
    r, g := RecordedIn(run, steps, p, checkpoint, h, id);
    b := BegunIn(run, steps, r, checkpoint, g);
    EvolvesTransitively(g, h, i);
    EvolvesTransitively(g, i, j);
    StillBegunBy(steps[b], checkpoint, g, j);
  }

  /**
   The history of a committed journal, in every run and with any edits to git
   between the commands.  Its `begin` found an accepted root without changes and
   each participant as that root has it; after that, each participant was recorded
   when its repository was clean at the recorded commit and tree, which is the
   target that `begin` was given, if any; after that, `prepare-root` and then
   `finalize` found all of them clean there again; and the commit is a child of
   the first root with the second one's index.
   */
  lemma CommittedHistory(steps: seq<Step>, checkpoint: nat, j: Journal, id: Id)
    returns (b: nat, r: nat, p: nat, f: nat)
    requires R.Holds(Run(steps), checkpoint, j) && j.phase == COMMITTED && id in j.declared
    ensures b < r < p < f < |steps|
    ensures BegunBy(steps[b], checkpoint, j)
    ensures forall n :: 0 <= n < |steps[b].command.participants| ==> Delivered(j, steps[b].command.participants[n])
    ensures id in j.recorded && RecordedBy(steps[r], checkpoint, id, j.recorded[id])
    ensures PreparedBy(steps[p], checkpoint, j) && FinalizedBy(steps[f], checkpoint, j)
    ensures Commits(j, steps[b].repo, steps[p].repo, steps[f].repo)
  {
    RunsAreSound(steps);
    assert Sound(j);
    RunsAreChains(steps, checkpoint);
    b, r, p, f := HistoryIn(HistoryOf(steps), steps, checkpoint, j, id);
    AllDelivered(steps[b], checkpoint, j);
  }
}
