/** The transaction commands as they run: step by step, under the transition lock. */
module Coordinator {
  import opened Wrappers
  import opened Git
  import opened Transaction
  import PosixPath

  // ----- Reading the command line -----

  lemma {:induction false} BadParticipantFails(ps: seq<Participant>, i: nat)
    requires i <= |ps| && ReadParticipants(ps[..i]).Failure?
    ensures ReadParticipants(ps) == ReadParticipants(ps[..i])
    decreases |ps|
  {
    if i < |ps| {
      assert ps[..|ps| - 1][..i] == ps[..i];
      BadParticipantFails(ps[..|ps| - 1], i);
    } else {
      assert ps[..i] == ps;
    }
  }

  lemma ParticipantStep(ps: seq<Participant>, i: nat)
    requires i < |ps| && ReadParticipants(ps[..i]).Success?
    ensures ReadParticipants(ps[..i + 1]) == AddParticipant(ReadParticipants(ps[..i]).value, ps[i])
  {
    assert ps[..i + 1][..i] == ps[..i];
  }

  method ParseParticipants(ps: seq<Participant>) returns (r: Result<map<Id, Declaration>, Error>)
    ensures r == ReadParticipants(ps)
  {
    var declared := map[];
    for i := 0 to |ps|
      invariant ReadParticipants(ps[..i]) == Success(declared)
    {
      ParticipantStep(ps, i);
      var added := AddParticipant(declared, ps[i]);
      if added.Failure? {
        BadParticipantFails(ps, i + 1);
        return added;
      }
      declared := added.value;
    }
    assert ps[..|ps|] == ps;
    return Success(declared);
  }

  lemma {:induction false} BadRootPathFails(raws: seq<string>, i: nat)
    requires i <= |raws| && ReadRootPaths(raws[..i]).Failure?
    ensures ReadRootPaths(raws) == ReadRootPaths(raws[..i])
    decreases |raws|
  {
    if i < |raws| {
      assert raws[..|raws| - 1][..i] == raws[..i];
      BadRootPathFails(raws[..|raws| - 1], i);
    } else {
      assert raws[..i] == raws;
    }
  }

  method ParseRootPaths(raws: seq<string>) returns (r: Result<set<Path>, Error>)
    ensures r == ReadRootPaths(raws)
  {
    var paths := {};
    for i := 0 to |raws|
      invariant ReadRootPaths(raws[..i]) == Success(paths)
    {
      assert raws[..i + 1][..i] == raws[..i];
      var path := RootPath(raws[i]);
      if path.Failure? {
        BadRootPathFails(raws, i + 1);
        return Failure(path.error);
      }
      if path.value in paths {
        BadRootPathFails(raws, i + 1);
        return Failure("root allowlist contains duplicate paths");
      }
      paths := paths + {path.value};
    }
    assert raws[..|raws|] == raws;
    return Success(paths);
  }

  // ----- Walking the journal -----

  /** `verify_declared_initial_children`: entries that lack the field get it as the walk passes them. */
  method VerifyInitialChildren(repo: Repository, j: Journal) returns (ok: bool, k: Journal)
    ensures ok <==> InitialChildrenAgree(repo, j)
    ensures ok ==> k == WithInitialChildren(repo, j)
  {
    k := j;
    if j.declared == map[] {
      return false, j;
    }
    var declared := j.declared;
    var rest := j.declared.Keys;
    while rest != {}
      invariant rest <= j.declared.Keys && declared.Keys == j.declared.Keys
      invariant forall id :: id in j.declared.Keys - rest ==>
                  var found := InitialIdentity(repo, j.previousRoot, j.declared[id].path);
                  && found.Success?
                  && (j.declared[id].initial.Missing? || j.declared[id].initial == found.value)
                  && declared[id] == j.declared[id].(initial := found.value)
      invariant forall id :: id in rest ==> declared[id] == j.declared[id]
      decreases |rest|
    {
      var id :| id in rest;
      var found := InitialIdentity(repo, j.previousRoot, j.declared[id].path);
      if found.Failure? {
        return false, j;
      }
      if j.declared[id].initial.Missing? {
        declared := declared[id := declared[id].(initial := found.value)];
      } else if j.declared[id].initial != found.value {
        return false, j;
      }
      rest := rest - {id};
    }
    k := j.(declared := declared);
    assert declared == WithInitialChildren(repo, j).declared;
    return true, k;
  }

  method PathTaken(j: Journal, id: Id, path: Path) returns (taken: bool)
    ensures taken <==> exists other :: other in j.declared && other != id && j.declared[other].path == path
  {
    var rest := j.declared.Keys - {id};
    while rest != {}
      invariant rest <= j.declared.Keys - {id}
      invariant forall other :: other in j.declared.Keys - {id} - rest ==> j.declared[other].path != path
      decreases |rest|
    {
      var other :| other in rest;
      if j.declared[other].path == path {
        return true;
      }
      rest := rest - {other};
    }
    return false;
  }

  /** The loop of `prepare-root` over the recorded children. */
  method VerifyStagedRecords(repo: Repository, j: Journal) returns (ok: bool)
    ensures ok <==> RecordsStaged(repo, j)
  {
    var rest := j.recorded.Keys;
    while rest != {}
      invariant rest <= j.recorded.Keys
      invariant forall id :: id in j.recorded.Keys - rest ==>
                  && ChildMatches(repo, j.recorded[id].path, j.recorded[id].identity)
                  && StagedAt(repo.index, j.recorded[id].path, j.recorded[id].identity.head)
      decreases |rest|
    {
      var id :| id in rest;
      var record := j.recorded[id];
      if !ChildMatches(repo, record.path, record.identity) || !StagedAt(repo.index, record.path, record.identity.head) {
        return false;
      }
      rest := rest - {id};
    }
    return true;
  }

  /** The loop of `finalize` over the recorded children. */
  method VerifyCommittedRecords(repo: Repository, j: Journal) returns (ok: bool)
    ensures ok <==> RecordsCommitted(repo, j)
  {
    var rest := j.recorded.Keys;
    while rest != {}
      invariant rest <= j.recorded.Keys
      invariant forall id :: id in j.recorded.Keys - rest ==>
                  && CommittedAt(repo.head.tree, j.recorded[id].path, j.recorded[id].identity.head)
                  && ChildMatches(repo, j.recorded[id].path, j.recorded[id].identity)
      decreases |rest|
    {
      var id :| id in rest;
      var record := j.recorded[id];
      if !CommittedAt(repo.head.tree, record.path, record.identity.head) || !ChildMatches(repo, record.path, record.identity) {
        return false;
      }
      rest := rest - {id};
    }
    return true;
  }

  /**
   `verify_staged_participant_gitlinks` and `verify_coordinator_participant_gitlinks`:
   one walk over the raw records of a diff decides the relation between the two
   trees, whatever the order of the records.
   */
  method VerifyGitlinks(records: seq<RawRecord>, before: Tree, after: Tree, expected: set<Path>) returns (ok: bool)
    requires IsRawDiff(records, before, after)
    ensures ok <==> GitlinksMatch(before, after, expected)
  {
    var changed: set<Path> := {};
    for i := 0 to |records|
      invariant changed == PathsOf(records[..i])
      invariant forall k :: 0 <= k < i ==> PublishesGitlink(records[k])
    {
      var record := records[i];
      assert record.path in PathsOf(records);
      if !PublishesGitlink(record) {
        assert record == RawRecord(ModeAt(before, record.path), ModeAt(after, record.path), record.path);
        return false;
      }
      assert record.path !in changed;
      assert records[..i + 1] == records[..i] + [record];
      changed := changed + {record.path};
    }
    assert records[..|records|] == records;
    ok := changed == expected;
    forall p | p in changed
      ensures PublishesGitlink(RawRecord(ModeAt(before, p), ModeAt(after, p), p))
    {
      var r :| r in records && r.path == p;
    }
  }

  // ----- The commands -----

  /** A sound control directory stays sound, and no active journal is lost or changes what was fixed. */
  ghost predicate Advances(before: Control, after: Control) {
    SoundControl(before) ==>
      && SoundControl(after)
      && forall k :: k in before.active ==> Kept(before, after, k)
  }

  lemma CommandAdvances(c: Control, repo: Repository, command: Command, d: Control)
    requires d == Execute(c, repo, command)
    ensures Advances(c, d)
  {
    if SoundControl(c) {
      ExecuteKeepsSound(c, repo, command);
      forall k | k in c.active
        ensures Kept(c, d, k)
      {
        ExecuteEvolves(c, repo, command, k);
      }
    }
  }

  lemma BeginAdvances(c: Control, repo: Repository, checkpoint: nat, ps: seq<Participant>, roots: seq<string>)
    ensures Advances(c, OrUnchanged(c, Transaction.Begin(c, repo, checkpoint, ps, roots)))
  {
    CommandAdvances(c, repo, BeginCommand(checkpoint, ps, roots),
                    OrUnchanged(c, Transaction.Begin(c, repo, checkpoint, ps, roots)));
  }

  lemma DeclareChildAdvances(c: Control, repo: Repository, checkpoint: nat, id: Id, rawPath: string, target: Option<Identity>)
    ensures Advances(c, OrUnchanged(c, Transaction.DeclareChild(c, repo, checkpoint, id, rawPath, target)))
  {
    CommandAdvances(c, repo, DeclareChildCommand(checkpoint, id, rawPath, target),
                    OrUnchanged(c, Transaction.DeclareChild(c, repo, checkpoint, id, rawPath, target)));
  }

  lemma DeclareRootAdvances(c: Control, checkpoint: nat, roots: seq<string>)
    ensures Advances(c, OrUnchanged(c, Transaction.DeclareRoot(c, checkpoint, roots)))
  {
    var repo := Repository(Commit.Root(map[], Message(true, [])), map[], {}, true, map[], checkpoint, true);
    CommandAdvances(c, repo, DeclareRootCommand(checkpoint, roots),
                    OrUnchanged(c, Transaction.DeclareRoot(c, checkpoint, roots)));
  }

  lemma RecordChildAdvances(c: Control, repo: Repository, checkpoint: nat, id: Id, rawPath: string, identity: Identity)
    ensures Advances(c, OrUnchanged(c, Transaction.RecordChild(c, repo, checkpoint, id, rawPath, identity)))
  {
    CommandAdvances(c, repo, RecordChildCommand(checkpoint, id, rawPath, identity),
                    OrUnchanged(c, Transaction.RecordChild(c, repo, checkpoint, id, rawPath, identity)));
  }

  lemma PrepareRootAdvances(c: Control, repo: Repository, checkpoint: nat)
    ensures Advances(c, OrUnchanged(c, Transaction.PrepareRoot(c, repo, checkpoint)))
  {
    CommandAdvances(c, repo, PrepareRootCommand(checkpoint),
                    OrUnchanged(c, Transaction.PrepareRoot(c, repo, checkpoint)));
  }

  lemma FinalizeAdvances(c: Control, repo: Repository, checkpoint: nat, committedAt: string)
    ensures Advances(c, Transaction.Finalize(c, repo, checkpoint, committedAt).control)
  {
    CommandAdvances(c, repo, FinalizeCommand(checkpoint, committedAt),
                    Transaction.Finalize(c, repo, checkpoint, committedAt).control);
  }

  /** The journals have the same previous root and declare the same paths. */
  ghost predicate SamePaths(j: Journal, k: Journal) {
    j.previousRoot == k.previousRoot && DeclaredPaths(j) == DeclaredPaths(k)
  }

  lemma FilledInSamePaths(repo: Repository, j: Journal)
    requires InitialChildrenAgree(repo, j)
    ensures SamePaths(WithInitialChildren(repo, j), j)
  {
    var k := WithInitialChildren(repo, j);
    assert forall id :: id in k.declared ==> k.declared[id].path == j.declared[id].path;
  }

  class Coordinator {
    var control: Control

    constructor ()
      ensures control == Control(map[], map[]) && SoundControl(control)
    {
      control := Control(map[], map[]);
    }

    method Begin(repo: Repository, checkpoint: nat, ps: seq<Participant>, roots: seq<string>)
      returns (error: Option<Error>)
      modifies this
      ensures error.None? <==> Transaction.Begin(old(control), repo, checkpoint, ps, roots).Success?
      ensures control == OrUnchanged(old(control), Transaction.Begin(old(control), repo, checkpoint, ps, roots))
      ensures Advances(old(control), control)
    {
      BeginAdvances(control, repo, checkpoint, ps, roots);
      var declared := ParseParticipants(ps);
      if declared.Failure? {
        return Some(declared.error);
      }
      var allowlist := ParseRootPaths(roots);
      if allowlist.Failure? {
        return Some(allowlist.error);
      }
      if declared.value == map[] || checkpoint > 9999 || control.active != map[] {
        return Some("no participant, a bad checkpoint or an active transaction");
      }
      if !MayBegin(repo, checkpoint) || !AllStartClean(repo, declared.value) {
        return Some("workspace or child is not ready");
      }
      control := Store(control, checkpoint, Begun(repo, checkpoint, declared.value, allowlist.value));
      return None;
    }

    method DeclareChild(repo: Repository, checkpoint: nat, id: Id, rawPath: string, target: Option<Identity>)
      returns (error: Option<Error>)
      modifies this
      ensures var r := Transaction.DeclareChild(old(control), repo, checkpoint, id, rawPath, target);
              (error.None? <==> r.Success?) && control == OrUnchanged(old(control), r)
      ensures Advances(old(control), control)
    {
      DeclareChildAdvances(control, repo, checkpoint, id, rawPath, target);
      var path := ChildPath(rawPath);
      var loaded := Load(control, checkpoint);
      if path.Failure? || loaded.Failure? {
        return Some("bad path or no journal");
      }
      if loaded.value.phase != PREPARE || !loaded.value.participantsLocked {
        return Some("participants can only be declared during prepare");
      }
      var agrees, j := VerifyInitialChildren(repo, loaded.value);
      if !agrees || id !in j.declared {
        return Some("child was not predeclared at its initial identity");
      }
      var taken := PathTaken(j, id, path.value);
      if taken {
        return Some("child path is already declared");
      }
      var previous := j.declared[id];
      if previous.path != path.value || (previous.target.Some? && previous.target != target) {
        return Some("declared child changed");
      }
      if id in j.recorded && j.recorded[id].path != path.value {
        return Some("recorded child path conflicts");
      }
      if id in j.recorded && target.Some? && j.recorded[id].identity != target.value {
        return Some("recorded child target conflicts");
      }
      if previous.target.None? {
        j := Targeted(j, id, target);
      }
      control := Store(control, checkpoint, j);
      return None;
    }

    method DeclareRoot(checkpoint: nat, roots: seq<string>) returns (error: Option<Error>)
      modifies this
      ensures var r := Transaction.DeclareRoot(old(control), checkpoint, roots);
              (error.None? <==> r.Success?) && control == OrUnchanged(old(control), r)
      ensures Advances(old(control), control)
    {
      DeclareRootAdvances(control, checkpoint, roots);
      var paths := ParseRootPaths(roots);
      if paths.Failure? {
        return Some(paths.error);
      }
      var loaded := Load(control, checkpoint);
      if loaded.Failure? || loaded.value.phase != PREPARE {
        return Some("root paths can only be declared during prepare");
      }
      var j := loaded.value;
      if j.allowlist != {} && j.allowlist != paths.value {
        return Some("root allowlist changed after declaration");
      }
      j := j.(allowlist := paths.value);
      control := Store(control, checkpoint, j);
      return None;
    }

    method RecordChild(repo: Repository, checkpoint: nat, id: Id, rawPath: string, identity: Identity)
      returns (error: Option<Error>)
      modifies this
      ensures var r := Transaction.RecordChild(old(control), repo, checkpoint, id, rawPath, identity);
              (error.None? <==> r.Success?) && control == OrUnchanged(old(control), r)
      ensures Advances(old(control), control)
    {
      RecordChildAdvances(control, repo, checkpoint, id, rawPath, identity);
      var path := ChildPath(rawPath);
      var loaded := Load(control, checkpoint);
      if path.Failure? || loaded.Failure? {
        return Some("bad path or no journal");
      }
      if loaded.value.phase != PREPARE || !loaded.value.participantsLocked {
        return Some("children can only be recorded during prepare");
      }
      var agrees, j := VerifyInitialChildren(repo, loaded.value);
      if !agrees || id !in j.declared || j.declared[id].path != path.value {
        return Some("child was not declared at this path");
      }
      if j.declared[id].target.Some? && j.declared[id].target.value != identity {
        return Some("child target differs from declaration");
      }
      if !ChildMatches(repo, path.value, identity) {
        return Some("child identity mismatch");
      }
      if exists other :: other in j.recorded && other != id && j.recorded[other].path == PosixPath.Split(rawPath) {
        return Some("child path is already recorded");
      }
      if id in j.recorded && j.recorded[id] != Record(path.value, identity) {
        return Some("child identity changed after recording");
      }
      control := Store(control, checkpoint, Noted(j, id, Record(path.value, identity)));
      return None;
    }

    /** `staged` is what `git diff --raw` prints for the index against the previous root. */
    method PrepareRoot(repo: Repository, checkpoint: nat, staged: seq<RawRecord>) returns (error: Option<Error>)
      requires checkpoint in control.active ==>
                 IsRawDiff(staged, control.active[checkpoint].previousRoot.tree, repo.index)
      modifies this
      ensures var r := Transaction.PrepareRoot(old(control), repo, checkpoint);
              (error.None? <==> r.Success?) && control == OrUnchanged(old(control), r)
      ensures Advances(old(control), control)
    {
      PrepareRootAdvances(control, repo, checkpoint);
      var loaded := Load(control, checkpoint);
      if loaded.Failure? || loaded.value.phase != PREPARE || !loaded.value.participantsLocked {
        return Some("transaction is not in prepare phase");
      }
      var agrees, j := VerifyInitialChildren(repo, loaded.value);
      if !agrees || j.declared.Keys != j.recorded.Keys {
        return Some("participant set is incomplete");
      }
      var stagedRecords := VerifyStagedRecords(repo, j);
      if !stagedRecords {
        return Some("staged gitlink mismatch");
      }
      var gitlinks := VerifyGitlinks(staged, j.previousRoot.tree, repo.index, DeclaredPaths(j));
      if !gitlinks {
        return Some("changed gitlinks differ from declared participants");
      }
      if j.allowlist == {} || StagedNames(repo) != j.allowlist || !repo.worktreeClean {
        return Some("staged paths differ from root allowlist");
      }
      control := Store(control, checkpoint, Prepared(j, repo.index));
      return None;
    }

    /** What `finalize` checks of the journal it has loaded; `published` is the raw diff of HEAD. */
    method CheckJournal(repo: Repository, checkpoint: nat, j: Journal, published: seq<RawRecord>) returns (ok: bool)
      requires checkpoint in control.active && SamePaths(j, control.active[checkpoint])
      requires IsRawDiff(published, j.previousRoot.tree, repo.head.tree)
      ensures ok <==> Refusal(control, repo, checkpoint, j).None?
    {
      if j.phase == PREPARE || repo.head.Root? || repo.head.parent != j.previousRoot {
        return false;
      }
      if Some(repo.head.tree) != j.expectedTree || !repo.head.message.wellFormed {
        return false;
      }
      if repo.head.message.checkpoints != [checkpoint] {
        return false;
      }
      var records := VerifyCommittedRecords(repo, j);
      if !records || repo.checkpoint != checkpoint {
        return false;
      }
      if j.phase == COMMITTED && (j.coordinator != Some(repo.head) || j.committedAt == "") {
        return false;
      }
      var gitlinks := VerifyGitlinks(published, j.previousRoot.tree, repo.head.tree, DeclaredPaths(j));
      ok := StatusClean(repo) && gitlinks && RootStateAllows(control, repo, checkpoint);
    }

    /** Everything `finalize` checks; `published` is what `git diff --raw` prints for HEAD against the previous root. */
    method CheckFinalize(repo: Repository, checkpoint: nat, published: seq<RawRecord>) returns (ok: bool, j: Journal)
      requires checkpoint in control.active ==>
                 IsRawDiff(published, control.active[checkpoint].previousRoot.tree, repo.head.tree)
      ensures ok <==> FinalizeChecks(control, repo, checkpoint).Success?
      ensures ok ==> j == FinalizeChecks(control, repo, checkpoint).value
    {
      var loaded := Load(control, checkpoint);
      if loaded.Failure? {
        return false, Begun(repo, checkpoint, map[], {});
      }
      var agrees;
      agrees, j := VerifyInitialChildren(repo, loaded.value);
      if !agrees {
        return false, j;
      }
      FilledInSamePaths(repo, loaded.value);
      ok := CheckJournal(repo, checkpoint, j, published);
    }

    /** The checks of `finalize`, then the write of the committed journal, then its retirement. */
    method Finalize(repo: Repository, checkpoint: nat, published: seq<RawRecord>, committedAt: string)
      returns (error: Option<Error>)
      requires checkpoint in control.active ==>
                 IsRawDiff(published, control.active[checkpoint].previousRoot.tree, repo.head.tree)
      modifies this
      ensures control == Transaction.Finalize(old(control), repo, checkpoint, committedAt).control
      ensures error.None? <==> Transaction.Finalize(old(control), repo, checkpoint, committedAt).error.None?
      ensures Advances(old(control), control)
    {
      FinalizeAdvances(control, repo, checkpoint, committedAt);
      var ok, j := CheckFinalize(repo, checkpoint, published);
      if !ok {
        return Some("transaction cannot be finalized");
      }
      control := Store(control, checkpoint, Committed(j, repo, committedAt));
      var effect := Retire(control, checkpoint);
      control := effect.control;
      return effect.error;
    }
  }
}
