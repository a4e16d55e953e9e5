/**
 The cross-repository transaction journal.  Each command is one function of the
 control directory and of whatever the git repositories contain when it runs.
 */
module Transaction {
  import opened Wrappers
  import opened Git
  import PosixPath

  type Id = string

  datatype Identity = Identity(head: ObjectId, tree: ObjectId)

  /** What the previous root says about a participant: `Missing` is a journal older than this field. */
  datatype Initial = Missing | Absent | Present(identity: Identity)

  datatype Declaration = Declaration(path: Path, target: Option<Identity>, initial: Initial)

  datatype Record = Record(path: Path, identity: Identity)

  datatype Phase = PREPARE | PREPARED | COMMITTED

  datatype Journal = Journal(
    checkpoint: nat,
    phase: Phase,
    previousRoot: Commit,
    participantsLocked: bool,
    declared: map<Id, Declaration>,
    recorded: map<Id, Record>,
    allowlist: set<Path>,
    expectedTree: Option<Tree>,
    coordinator: Option<Commit>,
    committedAt: string)

  /** The journals under txn/ and under committed/, by Checkpoint-ID. */
  datatype Control = Control(active: map<nat, Journal>, retired: map<nat, Journal>)

  type Error = string

  // ----- Paths -----

  /** `validated_child_path`. */
  function ChildPath(raw: string): Result<Path, Error> {
    var parts := PosixPath.Parts(PosixPath.Split(raw));
    if (raw != "" && raw[0] == '/') || ".." in parts || |parts| != 2 || parts[0] != "projects"
    then Failure("unsafe child path") else Success(parts)
  }

  /** `validated_root_path`. */
  function RootPath(raw: string): Result<Path, Error> {
    var parts := PosixPath.Parts(PosixPath.Split(raw));
    if (raw != "" && raw[0] == '/') || ".." in parts || raw == "" || raw == "."
    then Failure("unsafe root allowlist path") else Success(parts)
  }

  predicate IsChildPath(p: Path) {
    |p| == 2 && p[0] == "projects"
  }

  // ----- Checks against the repositories -----

  /** `verify_child_identity`. */
  predicate ChildMatches(repo: Repository, path: Path, identity: Identity) {
    && path in repo.children
    && repo.children[path].head == identity.head
    && identity.head in repo.children[path].trees
    && repo.children[path].trees[identity.head] == identity.tree
    && repo.children[path].clean
  }

  /** `initial_child_identity`. */
  function InitialIdentity(repo: Repository, root: Commit, path: Path): Result<Initial, Error> {
    if path in root.tree then
      var entry := root.tree[path];
      if entry.mode != GITLINK then Failure("previous root child entry is not a gitlink")
      else if path !in repo.children then Failure("previous child worktree is missing")
      else if entry.oid !in repo.children[path].trees then Failure("previous child tree is unavailable offline")
      else Success(Present(Identity(entry.oid, repo.children[path].trees[entry.oid])))
    else if exists q :: q in root.tree && path <= q then Failure("previous root child entry is not a gitlink")
    else Success(Absent)
  }

  /** Every declared child starts where the previous root says, where that is recorded at all. */
  predicate InitialChildrenAgree(repo: Repository, j: Journal) {
    && j.declared != map[]
    && forall id :: id in j.declared ==>
         var found := InitialIdentity(repo, j.previousRoot, j.declared[id].path);
         found.Success? && (j.declared[id].initial.Missing? || j.declared[id].initial == found.value)
  }

  /** `verify_declared_initial_children`, which also fills the field in journals that lack it. */
  function WithInitialChildren(repo: Repository, j: Journal): (r: Journal)
    requires InitialChildrenAgree(repo, j)
    ensures r.declared.Keys == j.declared.Keys
    ensures (forall id :: id in j.declared ==> !j.declared[id].initial.Missing?) ==> r == j
  {
    var declared := map id | id in j.declared ::
      j.declared[id].(initial := InitialIdentity(repo, j.previousRoot, j.declared[id].path).value);
    assert (forall id :: id in j.declared ==> !j.declared[id].initial.Missing?) ==> declared == j.declared;
    j.(declared := declared)
  }

  function DeclaredPaths(j: Journal): set<Path> {
    set id | id in j.declared :: j.declared[id].path
  }

  /** One changed entry under projects publishes a gitlink at a child path. */
  predicate PublishesGitlink(r: RawRecord) {
    && IsChildPath(r.path)
    && (r.oldMode.None? || r.oldMode == Some(GITLINK))
    && r.newMode == Some(GITLINK)
  }

  /** The projects that differ between two trees are exactly these paths, each a gitlink publication. */
  predicate GitlinksMatch(before: Tree, after: Tree, paths: set<Path>) {
    && ChangedProjects(before, after) == paths
    && forall p :: p in paths ==> PublishesGitlink(RawRecord(ModeAt(before, p), ModeAt(after, p), p))
  }

  /** `git ls-files --stage -- path` lists the path itself, or else what lies below it. */
  predicate StagedAt(index: Tree, path: Path, head: ObjectId) {
    || (path in index && index[path] == TreeEntry(GITLINK, head))
    || (path !in index && exists q :: q in index && path <= q && index[q] == TreeEntry(GITLINK, head))
  }

  /** `git ls-tree HEAD -- path` names the recorded head. */
  predicate CommittedAt(tree: Tree, path: Path, head: ObjectId) {
    path in tree && tree[path] == TreeEntry(GITLINK, head)
  }

  // ----- begin -----

  datatype Participant = Participant(id: Id, rawPath: string, target: Option<Identity>)

  predicate IsIdChar(c: char) {
    'a' <= c <= 'z' || '0' <= c <= '9'
  }

  predicate ValidId(id: Id) {
    |id| > 0 && IsIdChar(id[0]) && forall i :: 0 < i < |id| ==> IsIdChar(id[i]) || id[i] == '-'
  }

  /** The participants read so far, in order; a bad or repeated one fails. */
  function ReadParticipants(ps: seq<Participant>): (r: Result<map<Id, Declaration>, Error>)
    ensures r.Success? ==> DistinctPaths(r.value) && (ps != [] ==> r.value != map[])
    ensures r.Success? ==> forall id :: id in r.value ==> IsChildPath(r.value[id].path)
  {
    if ps == [] then Success(map[])
    else
      var before :- ReadParticipants(ps[..|ps| - 1]);
      AddParticipant(before, ps[|ps| - 1])
  }

  function AddParticipant(before: map<Id, Declaration>, p: Participant): (r: Result<map<Id, Declaration>, Error>)
    requires DistinctPaths(before)
    ensures r.Success? ==> DistinctPaths(r.value) && p.id in r.value
  {
    var path :- ChildPath(p.rawPath);
    if !ValidId(p.id) then Failure("invalid participant declaration")
    else if p.id in before || exists id :: id in before && before[id].path == path
    then Failure("duplicate participant declaration")
    else Success(before[p.id := Declaration(path, p.target, Missing)])
  }

  predicate DistinctPaths(declared: map<Id, Declaration>) {
    forall a, b :: a in declared && b in declared && a != b ==> declared[a].path != declared[b].path
  }

  /** The allowlist given on a command line; repeated paths fail. */
  function ReadRootPaths(raws: seq<string>): (r: Result<set<Path>, Error>) {
    if raws == [] then Success({})
    else
      var before :- ReadRootPaths(raws[..|raws| - 1]);
      var path :- RootPath(raws[|raws| - 1]);
      if path in before then Failure("root allowlist contains duplicate paths") else Success(before + {path})
  }

  /** `verify_begin_prerequisites` and the trailer check. */
  predicate MayBegin(repo: Repository, checkpoint: nat) {
    && StatusClean(repo)
    && repo.accepted
    && checkpoint == repo.checkpoint + 1
    && repo.head.message.checkpoints == [repo.checkpoint]
  }

  /** A participant is untouched since the previous root, or does not exist yet. */
  predicate StartsClean(repo: Repository, path: Path) {
    var found := InitialIdentity(repo, repo.head, path);
    && found.Success?
    && (match found.value
        case Present(identity) => ChildMatches(repo, path, identity)
        case _ => path !in repo.children)
  }

  function Begin(c: Control, repo: Repository, checkpoint: nat, ps: seq<Participant>, roots: seq<string>)
    : Result<Control, Error>
  {
    var declared :- ReadParticipants(ps);
    var allowlist :- ReadRootPaths(roots);
    if declared == map[] then Failure("a transaction must predeclare at least one child participant")
    else if checkpoint > 9999 then Failure("invalid Checkpoint-ID")
    else if c.active != map[] then Failure("another transaction is active")
    else if !MayBegin(repo, checkpoint) then Failure("workspace is not ready for this checkpoint")
    else if !AllStartClean(repo, declared) then Failure("child is not at its previous identity")
    else
      Success(Store(c, checkpoint, Begun(repo, checkpoint, declared, allowlist)))
  }

  predicate AllStartClean(repo: Repository, declared: map<Id, Declaration>) {
    forall id :: id in declared ==> StartsClean(repo, declared[id].path)
  }

  /** The journal `begin` publishes. */
  function Begun(repo: Repository, checkpoint: nat, declared: map<Id, Declaration>, allowlist: set<Path>): Journal
    requires AllStartClean(repo, declared)
  {
    var started := map id | id in declared ::
      declared[id].(initial := InitialIdentity(repo, repo.head, declared[id].path).value);
    Journal(checkpoint, PREPARE, repo.head, true, started, map[], allowlist, None, None, "")
  }

  // ----- declare-child, declare-root, record-child -----

  function Load(c: Control, checkpoint: nat): Result<Journal, Error> {
    if checkpoint > 9999 then Failure("invalid Checkpoint-ID")
    else if checkpoint in c.active then Success(c.active[checkpoint])
    else Failure("cannot read transaction journal")
  }

  function Store(c: Control, checkpoint: nat, j: Journal): Control {
    c.(active := c.active[checkpoint := j])
  }

  function DeclareChild(c: Control, repo: Repository, checkpoint: nat, id: Id, rawPath: string, target: Option<Identity>)
    : Result<Control, Error>
  {
    var path :- ChildPath(rawPath);
    var loaded :- Load(c, checkpoint);
    if loaded.phase != PREPARE then Failure("participants can only be declared during prepare")
    else if !loaded.participantsLocked then Failure("transaction participant set is not locked")
    else if !InitialChildrenAgree(repo, loaded) then Failure("declared child initial identity mismatch")
    else
      var j := WithInitialChildren(repo, loaded);
      if id !in j.declared then Failure("child was not predeclared when the transaction began")
      else if exists other :: other in j.declared && other != id && j.declared[other].path == path
      then Failure("child path is already declared")
      else if j.declared[id].path != path then Failure("declared child path changed")
      else if j.declared[id].target.Some? && j.declared[id].target != target
      then Failure("declared child identity changed")
      else if id in j.recorded && j.recorded[id].path != path then Failure("recorded child path conflicts")
      else if id in j.recorded && target.Some? && j.recorded[id].identity != target.value
      then Failure("recorded child target conflicts")
      else if j.declared[id].target.Some? then Success(Store(c, checkpoint, j))
      else Success(Store(c, checkpoint, Targeted(j, id, target)))
  }

  function Targeted(j: Journal, id: Id, target: Option<Identity>): Journal
    requires id in j.declared
  {
    j.(declared := j.declared[id := j.declared[id].(target := target)])
  }

  function DeclareRoot(c: Control, checkpoint: nat, roots: seq<string>): Result<Control, Error> {
    var paths :- ReadRootPaths(roots);
    var j :- Load(c, checkpoint);
    if j.phase != PREPARE then Failure("root paths can only be declared during prepare")
    else if j.allowlist != {} && j.allowlist != paths then Failure("root allowlist changed after declaration")
    else Success(Store(c, checkpoint, j.(allowlist := paths)))
  }

  function RecordChild(c: Control, repo: Repository, checkpoint: nat, id: Id, rawPath: string, identity: Identity)
    : Result<Control, Error>
  {
    var path :- ChildPath(rawPath);
    var loaded :- Load(c, checkpoint);
    if loaded.phase != PREPARE then Failure("children can only be recorded during prepare")
    else if !loaded.participantsLocked then Failure("transaction participant set is not locked")
    else if !InitialChildrenAgree(repo, loaded) then Failure("declared child initial identity mismatch")
    else
      var j := WithInitialChildren(repo, loaded);
      if id !in j.declared then Failure("child was not declared at transaction begin")
      else if j.declared[id].path != path then Failure("child path differs from declaration")
      else if j.declared[id].target.Some? && j.declared[id].target.value != identity
      then Failure("child target differs from declaration")
      else if !ChildMatches(repo, path, identity) then Failure("child identity mismatch")
      else if exists other :: other in j.recorded && other != id && j.recorded[other].path == PosixPath.Split(rawPath)
      then Failure("child path is already recorded")
      else if id in j.recorded && j.recorded[id] != Record(path, identity)
      then Failure("child identity changed after recording")
      else Success(Store(c, checkpoint, Noted(j, id, Record(path, identity))))
  }

  function Noted(j: Journal, id: Id, record: Record): Journal {
    j.(recorded := j.recorded[id := record])
  }

  // ----- prepare-root -----

  predicate RecordsStaged(repo: Repository, j: Journal) {
    forall id :: id in j.recorded ==>
      && ChildMatches(repo, j.recorded[id].path, j.recorded[id].identity)
      && StagedAt(repo.index, j.recorded[id].path, j.recorded[id].identity.head)
  }

  function PrepareRoot(c: Control, repo: Repository, checkpoint: nat): Result<Control, Error> {
    var loaded :- Load(c, checkpoint);
    if loaded.phase != PREPARE then Failure("transaction is not in prepare phase")
    else if !loaded.participantsLocked then Failure("transaction participant set is not locked")
    else if !InitialChildrenAgree(repo, loaded) then Failure("declared child initial identity mismatch")
    else
      var j := WithInitialChildren(repo, loaded);
      if j.declared.Keys != j.recorded.Keys then Failure("participant set is incomplete")
      else if !RecordsStaged(repo, j) then Failure("staged gitlink mismatch")
      else if !GitlinksMatch(j.previousRoot.tree, repo.index, DeclaredPaths(j))
      then Failure("changed gitlinks differ from declared participants")
      else if j.allowlist == {} then Failure("root staged-path allowlist is not declared")
      else if StagedNames(repo) != j.allowlist then Failure("staged paths differ from root allowlist")
      else if !repo.worktreeClean then Failure("root has uncoordinated files")
      else Success(Store(c, checkpoint, Prepared(j, repo.index)))
  }

  function Prepared(j: Journal, tree: Tree): Journal {
    j.(phase := PREPARED, expectedTree := Some(tree))
  }

  // ----- finalize -----

  /** The journal branch of `verify_root_state`, which finalize runs through the workspace verifier. */
  predicate RootStateAllows(c: Control, repo: Repository, checkpoint: nat) {
    && c.active.Keys == {checkpoint}
    && var j := c.active[checkpoint];
    && j.checkpoint == checkpoint
    && j.phase != PREPARE
    && j.participantsLocked && j.declared.Keys == j.recorded.Keys && j.allowlist != {}
    && InitialChildrenAgree(repo, j)
    && (forall id :: id in j.declared ==> IsChildPath(j.declared[id].path) && !j.declared[id].initial.Missing?)
    && DistinctPaths(j.declared)
    && (forall id :: id in j.recorded ==>
          && j.declared[id].path == j.recorded[id].path
          && (j.declared[id].target.Some? ==> j.declared[id].target.value == j.recorded[id].identity))
    && repo.head.Child?
    && j.expectedTree == Some(repo.head.tree) && j.previousRoot == repo.head.parent
    && GitlinksMatch(j.previousRoot.tree, repo.head.tree, DeclaredPaths(j))
    && (j.phase == COMMITTED ==> j.coordinator == Some(repo.head) && j.committedAt != "")
    && StatusClean(repo)
    && repo.accepted
  }

  predicate RecordsCommitted(repo: Repository, j: Journal) {
    forall id :: id in j.recorded ==>
      && CommittedAt(repo.head.tree, j.recorded[id].path, j.recorded[id].identity.head)
      && ChildMatches(repo, j.recorded[id].path, j.recorded[id].identity)
  }

  /** What finalize has against a journal that has been loaded, in the order of its checks. */
  function Refusal(c: Control, repo: Repository, checkpoint: nat, j: Journal): Option<Error> {
    if j.phase == PREPARE then Some("transaction must be prepared before finalization")
    else if repo.head.Root? then Some("git rev-parse HEAD^ failed")
    else if repo.head.parent != j.previousRoot
    then Some("coordinator commit does not directly follow previous_root")
    else if Some(repo.head.tree) != j.expectedTree
    then Some("coordinator commit tree differs from prepared root tree")
    else if !repo.head.message.wellFormed then Some("coordinator commit message is invalid")
    else if repo.head.message.checkpoints != [checkpoint]
    then Some("coordinator commit has a mismatched Checkpoint-ID trailer")
    else if !RecordsCommitted(repo, j) then Some("coordinator gitlink mismatch")
    else if repo.checkpoint != checkpoint then Some("state/current.json does not point to this transaction")
    else if j.phase == COMMITTED && j.coordinator != Some(repo.head)
    then Some("committed transaction does not bind the coordinator HEAD")
    else if j.phase == COMMITTED && j.committedAt == ""
    then Some("committed transaction lacks a commit timestamp")
    else if !StatusClean(repo) then Some("root worktree is dirty after coordinator commit")
    else if !RootStateAllows(c, repo, checkpoint) then Some("post-commit workspace verification failed")
    else None
  }

  /** Everything finalize checks before it writes. */
  function FinalizeChecks(c: Control, repo: Repository, checkpoint: nat): Result<Journal, Error> {
    var loaded :- Load(c, checkpoint);
    if !InitialChildrenAgree(repo, loaded) then Failure("declared child initial identity mismatch")
    else
      var j := WithInitialChildren(repo, loaded);
      var refusal := Refusal(c, repo, checkpoint, j);
      if refusal.Some? then Failure(refusal.value) else Success(j)
  }

  function Committed(j: Journal, repo: Repository, committedAt: string): Journal {
    if j.phase == PREPARED
    then j.(phase := COMMITTED, coordinator := Some(repo.head), committedAt := committedAt)
    else j
  }

  /** The effect of a command that may fail after it has written: the new directory and the error, if any. */
  datatype Effect = Effect(control: Control, error: Option<Error>)

  /** `retire_journal`. */
  function Retire(c: Control, checkpoint: nat): Effect
    requires checkpoint in c.active
  {
    if checkpoint in c.retired && c.retired[checkpoint] != c.active[checkpoint]
    then Effect(c, Some("retired transaction journal already exists"))
    else Effect(Control(c.active - {checkpoint}, c.retired[checkpoint := c.active[checkpoint]]), None)
  }

  function Finalize(c: Control, repo: Repository, checkpoint: nat, committedAt: string): Effect {
    Finished(c, repo, checkpoint, committedAt, FinalizeChecks(c, repo, checkpoint))
  }

  function Finished(c: Control, repo: Repository, checkpoint: nat, committedAt: string, checked: Result<Journal, Error>)
    : Effect
  {
    match checked
    case Failure(error) => Effect(c, Some(error))
    case Success(j) => Retire(Store(c, checkpoint, Committed(j, repo, committedAt)), checkpoint)
  }

  // ----- Runs -----

  datatype Command =
    | BeginCommand(checkpoint: nat, participants: seq<Participant>, roots: seq<string>)
    | DeclareChildCommand(checkpoint: nat, id: Id, rawPath: string, target: Option<Identity>)
    | DeclareRootCommand(checkpoint: nat, roots: seq<string>)
    | RecordChildCommand(checkpoint: nat, id: Id, rawPath: string, identity: Identity)
    | PrepareRootCommand(checkpoint: nat)
    | FinalizeCommand(checkpoint: nat, committedAt: string)
    /** finalize stopped by a crash after the journal was marked committed, before it was moved */
    | FinalizeUnmoved(checkpoint: nat, committedAt: string)
    /** finalize stopped by a crash that recovers both names of the journal */
    | FinalizeBothNames(checkpoint: nat, committedAt: string)

  function OrUnchanged(c: Control, r: Result<Control, Error>): Control {
    if r.Success? then r.value else c
  }

  function Execute(c: Control, repo: Repository, command: Command): Control {
    match command
    case BeginCommand(checkpoint, participants, roots) =>
      OrUnchanged(c, Begin(c, repo, checkpoint, participants, roots))
    case DeclareChildCommand(checkpoint, id, rawPath, target) =>
      OrUnchanged(c, DeclareChild(c, repo, checkpoint, id, rawPath, target))
    case DeclareRootCommand(checkpoint, roots) =>
      OrUnchanged(c, DeclareRoot(c, checkpoint, roots))
    case RecordChildCommand(checkpoint, id, rawPath, identity) =>
      OrUnchanged(c, RecordChild(c, repo, checkpoint, id, rawPath, identity))
    case PrepareRootCommand(checkpoint) =>
      OrUnchanged(c, PrepareRoot(c, repo, checkpoint))
    case FinalizeCommand(checkpoint, committedAt) =>
      Finalize(c, repo, checkpoint, committedAt).control
    case FinalizeUnmoved(checkpoint, committedAt) =>
      Unmoved(c, repo, checkpoint, committedAt, FinalizeChecks(c, repo, checkpoint))
    case FinalizeBothNames(checkpoint, committedAt) =>
      BothNames(c, repo, checkpoint, committedAt, FinalizeChecks(c, repo, checkpoint))
  }

  function Unmoved(c: Control, repo: Repository, checkpoint: nat, committedAt: string, checked: Result<Journal, Error>)
    : Control
  {
    if checked.Failure? then c else Store(c, checkpoint, Committed(checked.value, repo, committedAt))
  }

  function BothNames(c: Control, repo: Repository, checkpoint: nat, committedAt: string, checked: Result<Journal, Error>)
    : Control
  {
    var d := Unmoved(c, repo, checkpoint, committedAt, checked);
    if checked.Failure? || (checkpoint in c.retired && c.retired[checkpoint] != d.active[checkpoint]) then d
    else d.(retired := c.retired[checkpoint := d.active[checkpoint]])
  }

  /** A command together with the git state it happens to find: nothing relates the states of two steps. */
  datatype Step = Step(repo: Repository, command: Command)

  function Run(steps: seq<Step>): (c: Control) {
    if steps == [] then Control(map[], map[])
    else Execute(Run(steps[..|steps| - 1]), steps[|steps| - 1].repo, steps[|steps| - 1].command)
  }

  // ----- What every run keeps -----

  /** The recorded children sit at their declared paths and equal any declared target. */
  ghost predicate RecordsAgree(j: Journal) {
    forall id :: id in j.recorded ==>
      && id in j.declared
      && j.recorded[id].path == j.declared[id].path
      && (j.declared[id].target.Some? ==> j.declared[id].target.value == j.recorded[id].identity)
  }

  /** A tree that publishes the recorded heads and leaves every other project as the previous root has it. */
  ghost predicate Binds(j: Journal, tree: Tree) {
    && (forall id :: id in j.declared ==>
          id in j.recorded && CommittedAt(tree, j.declared[id].path, j.recorded[id].identity.head))
    && (forall p :: UnderProjects(p) && p !in DeclaredPaths(j) ==>
          EntryAt(tree, p) == EntryAt(j.previousRoot.tree, p))
    && GitlinksMatch(j.previousRoot.tree, tree, DeclaredPaths(j))
  }

  ghost predicate Sound(j: Journal) {
    && j.participantsLocked && j.declared != map[] && DistinctPaths(j.declared)
    && (forall id :: id in j.declared ==> IsChildPath(j.declared[id].path) && !j.declared[id].initial.Missing?)
    && RecordsAgree(j)
    && (j.phase != PREPARE ==>
          && j.declared.Keys == j.recorded.Keys && j.allowlist != {}
          && j.expectedTree.Some? && Binds(j, j.expectedTree.value))
    && (j.phase == COMMITTED ==>
          && j.coordinator.Some? && j.coordinator.value.Child?
          && j.coordinator.value.parent == j.previousRoot
          && j.expectedTree == Some(j.coordinator.value.tree))
  }

  ghost predicate SoundActive(active: map<nat, Journal>) {
    && (forall a, b :: a in active && b in active ==> a == b)
    && (forall k :: k in active ==> Sound(active[k]) && active[k].checkpoint == k)
  }

  ghost predicate SoundRetired(retired: map<nat, Journal>) {
    forall k :: k in retired ==> Sound(retired[k]) && retired[k].checkpoint == k && retired[k].phase == COMMITTED
  }

  ghost predicate SoundControl(c: Control) {
    SoundActive(c.active) && SoundRetired(c.retired)
  }

  lemma StoreKeepsSound(c: Control, checkpoint: nat, j: Journal)
    requires SoundControl(c) && (checkpoint in c.active || c.active == map[])
    requires Sound(j) && j.checkpoint == checkpoint
    ensures SoundControl(Store(c, checkpoint, j))
  {
  }

  lemma BegunIsSound(repo: Repository, checkpoint: nat, declared: map<Id, Declaration>, allowlist: set<Path>)
    requires AllStartClean(repo, declared) && declared != map[] && DistinctPaths(declared)
    requires forall id :: id in declared ==> IsChildPath(declared[id].path)
    ensures Sound(Begun(repo, checkpoint, declared, allowlist))
  {
    var j := Begun(repo, checkpoint, declared, allowlist);
    assert j.declared.Keys == declared.Keys;
    forall id | id in j.declared
      ensures !j.declared[id].initial.Missing?
    {
      assert StartsClean(repo, declared[id].path);
    }
  }

  lemma BeginKeepsSound(c: Control, repo: Repository, checkpoint: nat, ps: seq<Participant>, roots: seq<string>)
    requires SoundControl(c) && Begin(c, repo, checkpoint, ps, roots).Success?
    ensures SoundControl(Begin(c, repo, checkpoint, ps, roots).value)
  {
    var declared, allowlist := ReadParticipants(ps).value, ReadRootPaths(roots).value;
    BegunIsSound(repo, checkpoint, declared, allowlist);
    StoreKeepsSound(c, checkpoint, Begun(repo, checkpoint, declared, allowlist));
  }

  lemma TargetedIsSound(j: Journal, id: Id, target: Option<Identity>)
    requires Sound(j) && j.phase == PREPARE && id in j.declared && j.declared[id].target.None?
    requires id in j.recorded && target.Some? ==> j.recorded[id].identity == target.value
    ensures Sound(Targeted(j, id, target))
  {
    var k := Targeted(j, id, target);
    assert k.declared.Keys == j.declared.Keys;
    assert forall other :: other in j.declared ==>
      k.declared[other].path == j.declared[other].path && k.declared[other].initial == j.declared[other].initial;
  }

  lemma DeclareChildKeepsSound(
      c: Control, repo: Repository, checkpoint: nat, id: Id, rawPath: string, target: Option<Identity>)
    requires SoundControl(c) && DeclareChild(c, repo, checkpoint, id, rawPath, target).Success?
    ensures SoundControl(DeclareChild(c, repo, checkpoint, id, rawPath, target).value)
  {
    var j := c.active[checkpoint];
    if j.declared[id].target.None? {
      TargetedIsSound(j, id, target);
      StoreKeepsSound(c, checkpoint, Targeted(j, id, target));
    } else {
      StoreKeepsSound(c, checkpoint, j);
    }
  }

  lemma NotedIsSound(j: Journal, id: Id, identity: Identity)
    requires Sound(j) && j.phase == PREPARE && id in j.declared
    requires j.declared[id].target.Some? ==> j.declared[id].target.value == identity
    ensures Sound(Noted(j, id, Record(j.declared[id].path, identity)))
  {
  }

  lemma RecordChildKeepsSound(
      c: Control, repo: Repository, checkpoint: nat, id: Id, rawPath: string, identity: Identity)
    requires SoundControl(c) && RecordChild(c, repo, checkpoint, id, rawPath, identity).Success?
    ensures SoundControl(RecordChild(c, repo, checkpoint, id, rawPath, identity).value)
  {
    var j := c.active[checkpoint];
    NotedIsSound(j, id, identity);
    StoreKeepsSound(c, checkpoint, Noted(j, id, Record(j.declared[id].path, identity)));
  }

  lemma StagedTreeBinds(repo: Repository, j: Journal)
    requires RecordsAgree(j) && j.declared.Keys == j.recorded.Keys
    requires RecordsStaged(repo, j) && GitlinksMatch(j.previousRoot.tree, repo.index, DeclaredPaths(j))
    ensures Binds(j, repo.index)
  {
    forall id | id in j.declared
      ensures CommittedAt(repo.index, j.declared[id].path, j.recorded[id].identity.head)
    {
      assert j.declared[id].path in DeclaredPaths(j);
    }
    forall p | UnderProjects(p) && p !in DeclaredPaths(j)
      ensures EntryAt(repo.index, p) == EntryAt(j.previousRoot.tree, p)
    {
      assert p !in ChangedProjects(j.previousRoot.tree, repo.index);
    }
  }

  lemma PreparedIsSound(j: Journal, tree: Tree)
    requires Sound(j) && j.phase == PREPARE && j.declared.Keys == j.recorded.Keys && j.allowlist != {}
    requires Binds(j, tree)
    ensures Sound(Prepared(j, tree))
  {
    assert DeclaredPaths(Prepared(j, tree)) == DeclaredPaths(j);
    assert Binds(Prepared(j, tree), tree);
  }

  lemma PrepareRootKeepsSound(c: Control, repo: Repository, checkpoint: nat)
    requires SoundControl(c) && PrepareRoot(c, repo, checkpoint).Success?
    ensures SoundControl(PrepareRoot(c, repo, checkpoint).value)
  {
    var j := c.active[checkpoint];
    StagedTreeBinds(repo, j);
    PreparedIsSound(j, repo.index);
    StoreKeepsSound(c, checkpoint, Prepared(j, repo.index));
  }

  lemma NotRefused(c: Control, repo: Repository, checkpoint: nat, j: Journal)
    requires Refusal(c, repo, checkpoint, j).None?
    ensures Finalizable(j, repo)
  {
  }

  /** Filling in initial identities changes nothing in a sound journal. */
  lemma SoundIsSettled(repo: Repository, j: Journal)
    requires Sound(j) && InitialChildrenAgree(repo, j)
    ensures WithInitialChildren(repo, j) == j
  {
  }

  /** What finalize's checks say of the stored journal. */
  lemma ChecksSay(c: Control, repo: Repository, checkpoint: nat)
    requires SoundControl(c) && FinalizeChecks(c, repo, checkpoint).Success?
    ensures checkpoint in c.active && FinalizeChecks(c, repo, checkpoint).value == c.active[checkpoint]
    ensures Finalizable(c.active[checkpoint], repo)
  {
    SoundIsSettled(repo, c.active[checkpoint]);
    NotRefused(c, repo, checkpoint, c.active[checkpoint]);
  }

  /** HEAD is the commit of the prepared tree, and of the committed journal if it is one. */
  predicate Finalizable(j: Journal, repo: Repository) {
    && j.phase != PREPARE
    && repo.head.Child? && repo.head.parent == j.previousRoot && Some(repo.head.tree) == j.expectedTree
    && (j.phase == COMMITTED ==> j.coordinator == Some(repo.head))
  }

  lemma MarkedIsSound(j: Journal, repo: Repository, committedAt: string)
    requires Sound(j) && Finalizable(j, repo)
    ensures Sound(Committed(j, repo, committedAt)) && Committed(j, repo, committedAt).phase == COMMITTED
  {
    var m := Committed(j, repo, committedAt);
    assert DeclaredPaths(m) == DeclaredPaths(j);
    assert Binds(m, m.expectedTree.value);
  }

  lemma CommittedIsSound(c: Control, repo: Repository, checkpoint: nat, committedAt: string)
    requires SoundControl(c) && FinalizeChecks(c, repo, checkpoint).Success?
    ensures var j := Committed(FinalizeChecks(c, repo, checkpoint).value, repo, committedAt);
            Sound(j) && j.phase == COMMITTED && j.checkpoint == checkpoint
  {
    ChecksSay(c, repo, checkpoint);
    MarkedIsSound(c.active[checkpoint], repo, committedAt);
  }

  lemma RetiredWith(retired: map<nat, Journal>, checkpoint: nat, j: Journal)
    requires SoundRetired(retired) && Sound(j) && j.checkpoint == checkpoint && j.phase == COMMITTED
    ensures SoundRetired(retired[checkpoint := j])
  {
  }

  lemma ActiveWithout(active: map<nat, Journal>, checkpoint: nat)
    requires SoundActive(active)
    ensures SoundActive(active - {checkpoint})
  {
    assert forall k :: k in active - {checkpoint} ==> (active - {checkpoint})[k] == active[k];
  }

  lemma FinalizeKeepsSound(c: Control, repo: Repository, checkpoint: nat, committedAt: string)
    requires SoundControl(c) && FinalizeChecks(c, repo, checkpoint).Success?
    ensures SoundControl(Finalize(c, repo, checkpoint, committedAt).control)
  {
    CommittedIsSound(c, repo, checkpoint, committedAt);
    var j := Committed(FinalizeChecks(c, repo, checkpoint).value, repo, committedAt);
    StoreKeepsSound(c, checkpoint, j);
    RetiredWith(c.retired, checkpoint, j);
    ActiveWithout(Store(c, checkpoint, j).active, checkpoint);
  }

  lemma CrashesKeepSound(
      c: Control, repo: Repository, checkpoint: nat, committedAt: string, checked: Result<Journal, Error>)
    requires SoundControl(c) && checkpoint in c.active
    requires checked.Success? ==>
               var j := Committed(checked.value, repo, committedAt);
               Sound(j) && j.phase == COMMITTED && j.checkpoint == checkpoint
    ensures SoundControl(Unmoved(c, repo, checkpoint, committedAt, checked))
    ensures SoundControl(BothNames(c, repo, checkpoint, committedAt, checked))
  {
    if checked.Success? {
      var j := Committed(checked.value, repo, committedAt);
      StoreKeepsSound(c, checkpoint, j);
      RetiredWith(c.retired, checkpoint, j);
    }
  }

  lemma DeclareRootKeepsSound(c: Control, checkpoint: nat, roots: seq<string>)
    requires SoundControl(c) && DeclareRoot(c, checkpoint, roots).Success?
    ensures SoundControl(DeclareRoot(c, checkpoint, roots).value)
  {
    StoreKeepsSound(c, checkpoint, c.active[checkpoint].(allowlist := ReadRootPaths(roots).value));
  }

  lemma ExecuteKeepsSound(c: Control, repo: Repository, command: Command)
    requires SoundControl(c)
    ensures SoundControl(Execute(c, repo, command))
  {
    match command
    case BeginCommand(checkpoint, participants, roots) =>
      if Begin(c, repo, checkpoint, participants, roots).Success? {
        BeginKeepsSound(c, repo, checkpoint, participants, roots);
      }
    case DeclareChildCommand(checkpoint, id, rawPath, target) =>
      if DeclareChild(c, repo, checkpoint, id, rawPath, target).Success? {
        DeclareChildKeepsSound(c, repo, checkpoint, id, rawPath, target);
      }
    case DeclareRootCommand(checkpoint, roots) =>
      if DeclareRoot(c, checkpoint, roots).Success? {
        DeclareRootKeepsSound(c, checkpoint, roots);
      }
    case RecordChildCommand(checkpoint, id, rawPath, identity) =>
      if RecordChild(c, repo, checkpoint, id, rawPath, identity).Success? {
        RecordChildKeepsSound(c, repo, checkpoint, id, rawPath, identity);
      }
    case PrepareRootCommand(checkpoint) =>
      if PrepareRoot(c, repo, checkpoint).Success? {
        PrepareRootKeepsSound(c, repo, checkpoint);
      }
    case FinalizeCommand(checkpoint, committedAt) =>
      if FinalizeChecks(c, repo, checkpoint).Success? {
        FinalizeKeepsSound(c, repo, checkpoint, committedAt);
      }
    case FinalizeUnmoved(checkpoint, committedAt) =>
      if FinalizeChecks(c, repo, checkpoint).Success? {
        CommittedIsSound(c, repo, checkpoint, committedAt);
        CrashesKeepSound(c, repo, checkpoint, committedAt, FinalizeChecks(c, repo, checkpoint));
      }
    case FinalizeBothNames(checkpoint, committedAt) =>
      if FinalizeChecks(c, repo, checkpoint).Success? {
        CommittedIsSound(c, repo, checkpoint, committedAt);
        CrashesKeepSound(c, repo, checkpoint, committedAt, FinalizeChecks(c, repo, checkpoint));
      }
  }

  lemma {:induction false} RunsAreSound(steps: seq<Step>)
    ensures SoundControl(Run(steps))
  {
    if steps != [] {
      RunsAreSound(steps[..|steps| - 1]);
      var last := steps[|steps| - 1];
      ExecuteKeepsSound(Run(steps[..|steps| - 1]), last.repo, last.command);
    }
  }

  /** What a committed journal says about its commit. */
  ghost predicate BoundToCommit(j: Journal, commit: Commit) {
    && commit.Child? && commit.parent == j.previousRoot
    && j.recorded.Keys == j.declared.Keys
    && (forall id :: id in j.declared ==>
          var path := j.declared[id].path;
          && j.recorded[id].path == path
          && EntryAt(commit.tree, path) == Some(TreeEntry(GITLINK, j.recorded[id].identity.head))
          && EntryAt(commit.tree, path) != EntryAt(commit.parent.tree, path))
    && (forall p :: UnderProjects(p) && (forall id :: id in j.declared ==> j.declared[id].path != p) ==>
          EntryAt(commit.tree, p) == EntryAt(commit.parent.tree, p))
  }

  lemma SoundCommitIsBound(j: Journal)
    requires Sound(j) && j.phase == COMMITTED
    ensures BoundToCommit(j, j.coordinator.value)
  {
    var commit := j.coordinator.value;
    assert Binds(j, commit.tree);
    forall id | id in j.declared
      ensures j.recorded[id].path == j.declared[id].path
      ensures EntryAt(commit.tree, j.declared[id].path) != EntryAt(commit.parent.tree, j.declared[id].path)
    {
      assert j.declared[id].path in DeclaredPaths(j);
    }
  }

  /**
   Cross-repository commit: in any run, with any edits to git between the
   commands, a journal is committed only for a root commit that directly
   follows the previous root, carries the recorded head of every participant,
   each of them changed, and leaves every other project as it was.
   */
  lemma CommittedMeans(steps: seq<Step>, checkpoint: nat, j: Journal)
    requires || (checkpoint in Run(steps).active && Run(steps).active[checkpoint] == j && j.phase == COMMITTED)
             || (checkpoint in Run(steps).retired && Run(steps).retired[checkpoint] == j)
    ensures j.coordinator.Some? && BoundToCommit(j, j.coordinator.value)
  {
    RunsAreSound(steps);
    assert Sound(j) && j.phase == COMMITTED;
    SoundCommitIsBound(j);
  }

  /** At most one journal is ever active, and a prepared one has recorded exactly what it declared. */
  lemma ActiveJournals(steps: seq<Step>, a: nat, b: nat)
    requires a in Run(steps).active && b in Run(steps).active
    ensures a == b
    ensures RecordsAgree(Run(steps).active[a])
    ensures Run(steps).active[a].phase != PREPARE ==>
              Run(steps).active[a].recorded.Keys == Run(steps).active[a].declared.Keys
  {
    RunsAreSound(steps);
  }

  // ----- What never changes in a journal -----

  function Rank(p: Phase): nat {
    match p
    case PREPARE => 0
    case PREPARED => 1
    case COMMITTED => 2
  }

  /** `k` is a later state of `j`: nothing that was fixed has moved. */
  ghost predicate Evolves(j: Journal, k: Journal) {
    && k.checkpoint == j.checkpoint && k.previousRoot == j.previousRoot
    && Rank(j.phase) <= Rank(k.phase)
    && k.declared.Keys == j.declared.Keys
    && (forall id :: id in j.declared ==>
          && k.declared[id].path == j.declared[id].path
          && k.declared[id].initial == j.declared[id].initial
          && (j.declared[id].target.Some? ==> k.declared[id].target == j.declared[id].target))
    && (forall id :: id in j.recorded ==> id in k.recorded && k.recorded[id] == j.recorded[id])
    && (j.allowlist != {} ==> k.allowlist == j.allowlist)
    && (j.phase != PREPARE ==>
          k.declared == j.declared && k.recorded == j.recorded && k.expectedTree == j.expectedTree)
    && (j.phase == COMMITTED ==> k == j)
  }

  lemma EvolvesTransitively(j: Journal, k: Journal, l: Journal)
    requires Evolves(j, k) && Evolves(k, l)
    ensures Evolves(j, l)
  {
  }

  lemma TargetedEvolves(j: Journal, id: Id, target: Option<Identity>)
    requires j.phase == PREPARE && id in j.declared && j.declared[id].target.None?
    ensures Evolves(j, Targeted(j, id, target))
  {
    assert Targeted(j, id, target).declared.Keys == j.declared.Keys;
  }

  lemma DeclareChildEvolves(
      c: Control, repo: Repository, checkpoint: nat, id: Id, rawPath: string, target: Option<Identity>)
    requires SoundControl(c) && DeclareChild(c, repo, checkpoint, id, rawPath, target).Success?
    ensures exists j :: DeclareChild(c, repo, checkpoint, id, rawPath, target) == Success(Store(c, checkpoint, j))
                     && Evolves(c.active[checkpoint], j)
  {
    var j := c.active[checkpoint];
    assert WithInitialChildren(repo, j) == j;
    var k := if j.declared[id].target.Some? then j else Targeted(j, id, target);
    if j.declared[id].target.None? {
      TargetedEvolves(j, id, target);
    }
    assert DeclareChild(c, repo, checkpoint, id, rawPath, target) == Success(Store(c, checkpoint, k));
  }

  lemma RecordChildEvolves(
      c: Control, repo: Repository, checkpoint: nat, id: Id, rawPath: string, identity: Identity)
    requires SoundControl(c) && RecordChild(c, repo, checkpoint, id, rawPath, identity).Success?
    ensures exists j :: RecordChild(c, repo, checkpoint, id, rawPath, identity) == Success(Store(c, checkpoint, j))
                     && Evolves(c.active[checkpoint], j)
  {
    var j := c.active[checkpoint];
    var k := Noted(j, id, Record(j.declared[id].path, identity));
    RecordChildStores(c, repo, checkpoint, id, rawPath, identity);
    NotedEvolves(j, id, k.recorded[id]);
  }

  lemma NotedEvolves(j: Journal, id: Id, record: Record)
    requires j.phase == PREPARE && (id in j.recorded ==> j.recorded[id] == record)
    ensures Evolves(j, Noted(j, id, record))
  {
  }

  lemma RecordChildStores(
      c: Control, repo: Repository, checkpoint: nat, id: Id, rawPath: string, identity: Identity)
    requires SoundControl(c) && RecordChild(c, repo, checkpoint, id, rawPath, identity).Success?
    ensures checkpoint in c.active
    ensures var j := c.active[checkpoint];
            && j.phase == PREPARE && id in j.declared
            && (id in j.recorded ==> j.recorded[id] == Record(j.declared[id].path, identity))
            && RecordChild(c, repo, checkpoint, id, rawPath, identity)
               == Success(Store(c, checkpoint, Noted(j, id, Record(j.declared[id].path, identity))))
  {
    assert WithInitialChildren(repo, c.active[checkpoint]) == c.active[checkpoint];
  }

  lemma PrepareRootEvolves(c: Control, repo: Repository, checkpoint: nat)
    requires SoundControl(c) && PrepareRoot(c, repo, checkpoint).Success?
    ensures PrepareRoot(c, repo, checkpoint) == Success(Store(c, checkpoint, Prepared(c.active[checkpoint], repo.index)))
    ensures Evolves(c.active[checkpoint], Prepared(c.active[checkpoint], repo.index))
  {
    assert WithInitialChildren(repo, c.active[checkpoint]) == c.active[checkpoint];
  }

  lemma MarkedEvolves(j: Journal, repo: Repository, committedAt: string)
    requires Finalizable(j, repo)
    ensures Evolves(j, Committed(j, repo, committedAt))
  {
  }

  lemma CommittedEvolves(c: Control, repo: Repository, checkpoint: nat, committedAt: string)
    requires SoundControl(c) && FinalizeChecks(c, repo, checkpoint).Success?
    ensures FinalizeChecks(c, repo, checkpoint).value == c.active[checkpoint]
    ensures Evolves(c.active[checkpoint], Committed(c.active[checkpoint], repo, committedAt))
  {
    ChecksSay(c, repo, checkpoint);
    MarkedEvolves(c.active[checkpoint], repo, committedAt);
  }

  /** The journal is still active or has been retired, and has only evolved. */
  ghost predicate Kept(c: Control, d: Control, k: nat)
    requires k in c.active
  {
    || (k in d.active && Evolves(c.active[k], d.active[k]))
    || (k !in d.active && k in d.retired && Evolves(c.active[k], d.retired[k]))
  }

  /** Wherever finalize ends or is stopped, the marked journal is kept. */
  lemma RetireKeeps(c: Control, m: Journal, k: nat)
    requires k in c.active && Evolves(c.active[k], m)
    ensures Kept(c, Store(c, k, m), k)
    ensures Kept(c, Retire(Store(c, k, m), k).control, k)
    ensures Kept(c, Store(c, k, m).(retired := c.retired[k := m]), k)
  {
  }

  lemma StopsKeep(c: Control, repo: Repository, checkpoint: nat, committedAt: string, checked: Result<Journal, Error>, k: nat)
    requires SoundControl(c) && k in c.active && checkpoint in c.active
    requires checked.Success? ==>
               checked.value == c.active[checkpoint]
               && Evolves(c.active[checkpoint], Committed(c.active[checkpoint], repo, committedAt))
    ensures Kept(c, Unmoved(c, repo, checkpoint, committedAt, checked), k)
    ensures Kept(c, BothNames(c, repo, checkpoint, committedAt, checked), k)
  {
    if checked.Success? {
      RetireKeeps(c, Committed(c.active[checkpoint], repo, committedAt), k);
    }
  }

  lemma FinalizeKeeps(c: Control, repo: Repository, command: Command, k: nat)
    requires SoundControl(c) && k in c.active
    requires command.FinalizeCommand? || command.FinalizeUnmoved? || command.FinalizeBothNames?
    ensures Kept(c, Execute(c, repo, command), k)
  {
    var checkpoint := command.checkpoint;
    var checked := FinalizeChecks(c, repo, checkpoint);
    if checked.Success? {
      CommittedEvolves(c, repo, checkpoint, command.committedAt);
      assert k == checkpoint;
      RetireKeeps(c, Committed(c.active[k], repo, command.committedAt), k);
      StopsKeep(c, repo, k, command.committedAt, checked, k);
    }
  }

  /** Storing a later state of the active journal keeps it. */
  lemma StoringKeeps(c: Control, d: Control, checkpoint: nat, k: nat)
    requires SoundControl(c) && k in c.active && checkpoint in c.active
    requires exists j :: d == Store(c, checkpoint, j) && Evolves(c.active[checkpoint], j)
    ensures Kept(c, d, k)
  {
  }

  lemma ChildCommandsKeep(c: Control, repo: Repository, command: Command, k: nat)
    requires SoundControl(c) && k in c.active
    requires command.DeclareChildCommand? || command.RecordChildCommand?
    ensures Kept(c, Execute(c, repo, command), k)
  {
    var d := Execute(c, repo, command);
    match command
    case DeclareChildCommand(checkpoint, id, rawPath, target) =>
      if DeclareChild(c, repo, checkpoint, id, rawPath, target).Success? {
        DeclareChildEvolves(c, repo, checkpoint, id, rawPath, target);
        StoringKeeps(c, d, checkpoint, k);
      }
    case RecordChildCommand(checkpoint, id, rawPath, identity) =>
      if RecordChild(c, repo, checkpoint, id, rawPath, identity).Success? {
        RecordChildEvolves(c, repo, checkpoint, id, rawPath, identity);
        StoringKeeps(c, d, checkpoint, k);
      }
  }

  lemma RootCommandsKeep(c: Control, repo: Repository, command: Command, k: nat)
    requires SoundControl(c) && k in c.active
    requires command.BeginCommand? || command.DeclareRootCommand? || command.PrepareRootCommand?
    ensures Kept(c, Execute(c, repo, command), k)
  {
    var d := Execute(c, repo, command);
    match command
    case BeginCommand(checkpoint, participants, roots) =>
      assert Begin(c, repo, checkpoint, participants, roots).Failure?;
    case DeclareRootCommand(checkpoint, roots) =>
      if DeclareRoot(c, checkpoint, roots).Success? {
        var j := c.active[checkpoint].(allowlist := ReadRootPaths(roots).value);
        assert d == Store(c, checkpoint, j) && Evolves(c.active[checkpoint], j);
        StoringKeeps(c, d, checkpoint, k);
      }
    case PrepareRootCommand(checkpoint) =>
      if PrepareRoot(c, repo, checkpoint).Success? {
        PrepareRootEvolves(c, repo, checkpoint);
        StoringKeeps(c, d, checkpoint, k);
      }
  }

  /** One command leaves every active journal in place and evolved, or retires it. */
  lemma ExecuteEvolves(c: Control, repo: Repository, command: Command, k: nat)
    requires SoundControl(c) && k in c.active
    ensures Kept(c, Execute(c, repo, command), k)
  {
    if command.DeclareChildCommand? || command.RecordChildCommand? {
      ChildCommandsKeep(c, repo, command, k);
    } else if command.BeginCommand? || command.DeclareRootCommand? || command.PrepareRootCommand? {
      RootCommandsKeep(c, repo, command, k);
    } else {
      FinalizeKeeps(c, repo, command, k);
    }
  }

  /** The active journals of a run after any number of its steps. */
  ghost function ActiveDuring(steps: seq<Step>): nat -> map<nat, Journal> {
    (n: nat) => if n <= |steps| then Run(steps[..n]).active else map[]
  }

  ghost predicate StaysActive(active: nat -> map<nat, Journal>, start: nat, end: nat, k: nat) {
    forall n {:trigger active(n)} :: start <= n <= end ==> k in active(n)
  }

  ghost predicate EvolvesAt(active: nat -> map<nat, Journal>, n: nat, k: nat)
  {
    k in active(n) && k in active(n + 1) && Evolves(active(n)[k], active(n + 1)[k])
  }

  lemma {:induction false} ChainEvolves(active: nat -> map<nat, Journal>, start: nat, end: nat, k: nat)
    requires start <= end && k in active(start)
    requires forall n {:trigger EvolvesAt(active, n, k)} :: start <= n < end ==> EvolvesAt(active, n, k)
    ensures k in active(end) && Evolves(active(start)[k], active(end)[k])
    decreases end
  {
    if start < end {
      ChainEvolves(active, start, end - 1, k);
      assert EvolvesAt(active, end - 1, k);
      EvolvesTransitively(active(start)[k], active(end - 1)[k], active(end)[k]);
    }
  }

  lemma NextEvolves(steps: seq<Step>, n: nat, k: nat)
    requires n < |steps| && k in ActiveDuring(steps)(n) && k in ActiveDuring(steps)(n + 1)
    ensures EvolvesAt(ActiveDuring(steps), n, k)
  {
    assert steps[..n + 1][..n] == steps[..n];
    StepEvolves(steps[..n + 1], k, Run(steps[..n]));
  }

  /** Over any stretch of a run in which a journal stays active, it only evolves. */
  lemma RunsEvolve(steps: seq<Step>, start: nat, end: nat, k: nat)
    requires start <= end <= |steps| && StaysActive(ActiveDuring(steps), start, end, k)
    ensures k in ActiveDuring(steps)(start) && k in ActiveDuring(steps)(end)
    ensures Evolves(ActiveDuring(steps)(start)[k], ActiveDuring(steps)(end)[k])
  {
    var active := ActiveDuring(steps);
    assert k in active(start);
    forall n | start <= n < end
      ensures EvolvesAt(active, n, k)
    {
      assert k in active(n) && k in active(n + 1);
      NextEvolves(steps, n, k);
    }
    ChainEvolves(active, start, end, k);
  }

  lemma StepEvolves(steps: seq<Step>, k: nat, before: Control)
    requires steps != [] && before == Run(steps[..|steps| - 1])
    requires k in before.active && k in Run(steps).active
    ensures Evolves(before.active[k], Run(steps).active[k])
  {
    RunsAreSound(steps[..|steps| - 1]);
    ExecuteEvolves(before, steps[|steps| - 1].repo, steps[|steps| - 1].command, k);
  }

  // ----- When finalize succeeds -----

  /** The prepared tree has been committed on the previous root and nothing else is in the way. */
  predicate CommitInPlace(repo: Repository, j: Journal) {
    && repo.head.Child? && repo.head.parent == j.previousRoot && Some(repo.head.tree) == j.expectedTree
    && repo.head.message.wellFormed && repo.head.message.checkpoints == [j.checkpoint]
    && repo.checkpoint == j.checkpoint && StatusClean(repo) && repo.accepted
    && InitialChildrenAgree(repo, j)
    && (forall id :: id in j.recorded ==> ChildMatches(repo, j.recorded[id].path, j.recorded[id].identity))
    && (j.phase == COMMITTED ==> j.coordinator == Some(repo.head))
  }

  lemma RecordsPass(repo: Repository, j: Journal)
    requires Sound(j) && j.phase != PREPARE && CommitInPlace(repo, j)
    ensures RecordsCommitted(repo, j)
  {
    assert Binds(j, repo.head.tree);
  }

  lemma RootStatePasses(c: Control, repo: Repository, checkpoint: nat)
    requires SoundControl(c) && checkpoint in c.active
    requires c.active[checkpoint].phase != PREPARE && CommitInPlace(repo, c.active[checkpoint])
    requires c.active[checkpoint].phase == COMMITTED ==> c.active[checkpoint].committedAt != ""
    ensures RootStateAllows(c, repo, checkpoint)
  {
    assert Binds(c.active[checkpoint], repo.head.tree);
    assert c.active.Keys == {checkpoint};
  }

  lemma NothingRefused(c: Control, repo: Repository, checkpoint: nat, j: Journal)
    requires CommitInPlace(repo, j) && j.checkpoint == checkpoint && j.phase != PREPARE && RecordsCommitted(repo, j)
    requires (j.phase == COMMITTED ==> j.committedAt != "") ==> RootStateAllows(c, repo, checkpoint)
    ensures Refusal(c, repo, checkpoint, j).None? <==> (j.phase == COMMITTED ==> j.committedAt != "")
  {
  }

  lemma ChecksPass(c: Control, repo: Repository, checkpoint: nat)
    requires SoundControl(c) && checkpoint in c.active && checkpoint <= 9999
    requires c.active[checkpoint].phase != PREPARE && CommitInPlace(repo, c.active[checkpoint])
    ensures FinalizeChecks(c, repo, checkpoint).Success?
       <==> (c.active[checkpoint].phase == COMMITTED ==> c.active[checkpoint].committedAt != "")
    ensures FinalizeChecks(c, repo, checkpoint).Success? ==>
              FinalizeChecks(c, repo, checkpoint) == Success(c.active[checkpoint])
  {
    var j := c.active[checkpoint];
    SoundIsSettled(repo, j);
    RecordsPass(repo, j);
    if j.phase == COMMITTED ==> j.committedAt != "" {
      RootStatePasses(c, repo, checkpoint);
    }
    NothingRefused(c, repo, checkpoint, j);
  }

  /**
   What `prepare-root` checked of the index is everything finalize checks of
   the tree: with the prepared tree committed on the previous root, finalize
   succeeds except for an empty recorded timestamp or a different retired
   journal of the same name, and then leaves no active journal.
   */
  lemma FinalizeExactly(c: Control, repo: Repository, checkpoint: nat, committedAt: string)
    requires SoundControl(c) && checkpoint in c.active && checkpoint <= 9999
    requires c.active[checkpoint].phase != PREPARE && CommitInPlace(repo, c.active[checkpoint])
    ensures var j := c.active[checkpoint];
            var finished := Finalize(c, repo, checkpoint, committedAt);
            var m := Committed(j, repo, committedAt);
            && (finished.error.None? <==>
                  (j.phase == COMMITTED ==> j.committedAt != "")
                  && (checkpoint in c.retired ==> c.retired[checkpoint] == m))
            && (finished.error.None? ==>
                  finished.control == Control(map[], c.retired[checkpoint := m]) && m.phase == COMMITTED)
  {
    ChecksPass(c, repo, checkpoint);
    var m := Committed(c.active[checkpoint], repo, committedAt);
    assert c.active.Keys == {checkpoint};
    RetireExactly(c, checkpoint, m);
  }

  lemma RetireExactly(c: Control, checkpoint: nat, m: Journal)
    requires c.active.Keys == {checkpoint}
    ensures var retired := Retire(Store(c, checkpoint, m), checkpoint);
            && (retired.error.None? <==> (checkpoint in c.retired ==> c.retired[checkpoint] == m))
            && (retired.error.None? ==> retired.control == Control(map[], c.retired[checkpoint := m]))
  {
    assert Store(c, checkpoint, m).active - {checkpoint} == map[];
  }

  lemma StillInPlace(repo: Repository, j: Journal, first: string)
    requires Sound(j) && j.phase == PREPARED && CommitInPlace(repo, j)
    ensures CommitInPlace(repo, Committed(j, repo, first))
  {
  }

  /**
   A finalize that is stopped after it marked the journal committed can be
   repeated only if its timestamp was not empty: an empty one is stored the
   first time and refused ever after.
   */
  lemma StoppedFinalizeCanBeRepeated(c: Control, repo: Repository, checkpoint: nat, first: string, second: string)
    requires SoundControl(c) && checkpoint in c.active && checkpoint <= 9999 && checkpoint !in c.retired
    requires c.active[checkpoint].phase == PREPARED && CommitInPlace(repo, c.active[checkpoint])
    ensures var stopped := Unmoved(c, repo, checkpoint, first, FinalizeChecks(c, repo, checkpoint));
            && checkpoint in stopped.active && stopped.active[checkpoint].phase == COMMITTED
            && (Finalize(stopped, repo, checkpoint, second).error.None? <==> first != "")
  {
    ChecksPass(c, repo, checkpoint);
    var checked := FinalizeChecks(c, repo, checkpoint);
    assert checked == Success(c.active[checkpoint]);
    CommittedIsSound(c, repo, checkpoint, first);
    RepeatStopped(c, repo, checkpoint, first, second);
    assert Unmoved(c, repo, checkpoint, first, checked)
        == Store(c, checkpoint, Committed(c.active[checkpoint], repo, first));
  }

  lemma RepeatStopped(c: Control, repo: Repository, checkpoint: nat, first: string, second: string)
    requires SoundControl(c) && checkpoint in c.active && checkpoint <= 9999 && checkpoint !in c.retired
    requires c.active[checkpoint].phase == PREPARED && CommitInPlace(repo, c.active[checkpoint])
    requires Sound(Committed(c.active[checkpoint], repo, first))
    ensures var stopped := Store(c, checkpoint, Committed(c.active[checkpoint], repo, first));
            Finalize(stopped, repo, checkpoint, second).error.None? <==> first != ""
  {
    var j := Committed(c.active[checkpoint], repo, first);
    StillInPlace(repo, c.active[checkpoint], first);
    StoreKeepsSound(c, checkpoint, j);
    FinalizeExactly(Store(c, checkpoint, j), repo, checkpoint, second);
  }
}
