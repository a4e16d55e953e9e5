/**
 When each command of the transaction is accepted, and what it then writes, told
 from the repositories and the arguments alone.
 */
module Acceptance {
  import PosixPath
  import opened Git
  import opened Provenance
  import opened Transaction
  import opened Wrappers

  // ----- Arguments -----

  predicate IsLetter(c: char) {
    c in "abcdefghijklmnopqrstuvwxyz"
  }

  predicate IsDigit(c: char) {
    c in "0123456789"
  }

  lemma LetterExactly(c: char)
    ensures 'a' <= c <= 'z' <==> IsLetter(c)
  {
    var letters := "abcdefghijklmnopqrstuvwxyz";
    if 'a' <= c <= 'z' {
      assert letters[c as int - 'a' as int] == c;
    }
  }

  lemma DigitExactly(c: char)
    ensures '0' <= c <= '9' <==> IsDigit(c)
  {
    var digits := "0123456789";
    if '0' <= c <= '9' {
      assert digits[c as int - '0' as int] == c;
    }
  }

  /** Lowercase letters, digits and hyphens, not starting with a hyphen. */
  lemma ValidIdExactly(id: Id)
    ensures ValidId(id) <==>
              && id != "" && id[0] != '-'
              && forall c :: c in id ==> IsLetter(c) || IsDigit(c) || c == '-'
  {
    forall c
      ensures IsIdChar(c) <==> IsLetter(c) || IsDigit(c)
    {
      LetterExactly(c);
      DigitExactly(c);
    }
    if id != "" {
      assert id[0] in id;
    }
  }

  lemma ChildPathExactly(raw: string, path: Path)
    ensures ChildPath(raw) == Success(path) <==> SpellsChild(raw, path)
  {
  }

  /** Valid and distinct ids at distinct child paths. */
  predicate Readable(ps: seq<Participant>, paths: seq<Path>) {
    && |paths| == |ps|
    && (forall i :: 0 <= i < |ps| ==> ValidId(ps[i].id) && SpellsChild(ps[i].rawPath, paths[i]))
    && (forall i, k :: 0 <= i < k < |ps| ==> ps[i].id != ps[k].id && paths[i] != paths[k])
  }

  /** The paths are those of the participants, in their order. */
  predicate At(declared: map<Id, Declaration>, ps: seq<Participant>, paths: seq<Path>) {
    |paths| == |ps| && forall i :: 0 <= i < |ps| ==> ps[i].id in declared && declared[ps[i].id].path == paths[i]
  }

  lemma AddsAt(before: map<Id, Declaration>, p: Participant, path: Path)
    requires DistinctPaths(before) && ValidId(p.id) && SpellsChild(p.rawPath, path)
    requires p.id !in before && forall id :: id in before ==> before[id].path != path
    ensures AddParticipant(before, p) == Success(before[p.id := Declaration(path, p.target, Missing)])
  {
    ChildPathExactly(p.rawPath, path);
  }

  lemma NewParticipant(before: map<Id, Declaration>, init: seq<Participant>, p: Participant, paths: seq<Path>)
    requires Readable(init + [p], paths) && ReadFromAll(before, init) && At(before, init, paths[..|init|])
    ensures p.id !in before && forall id :: id in before ==> before[id].path != paths[|init|]
  {
    forall id | id in before
      ensures id != p.id && before[id].path != paths[|init|]
    {
      assert HasId(init, id);
      var i :| 0 <= i < |init| && init[i].id == id;
      assert (init + [p])[i] == init[i] && (init + [p])[|init|] == p;
    }
  }

  lemma {:induction false} ReadableIsRead(ps: seq<Participant>, paths: seq<Path>)
    requires Readable(ps, paths)
    ensures ReadParticipants(ps).Success? && At(ReadParticipants(ps).value, ps, paths)
  {
    if ps != [] {
      var n := |ps| - 1;
      var init, last := ps[..n], ps[n];
      assert ps == init + [last];
      ReadableInit(ps, paths);
      ReadableIsRead(init, paths[..n]);
      ReadsAll(init);
      var before := ReadParticipants(init).value;
      NewParticipant(before, init, last, paths);
      AddsAt(before, last, paths[n]);
      OneMoreAt(before, init, last, paths);
    }
  }

  lemma ReadableInit(ps: seq<Participant>, paths: seq<Path>)
    requires ps != [] && Readable(ps, paths)
    ensures Readable(ps[..|ps| - 1], paths[..|ps| - 1])
  {
  }

  lemma OneMoreAt(before: map<Id, Declaration>, init: seq<Participant>, p: Participant, paths: seq<Path>)
    requires |paths| == |init| + 1 && At(before, init, paths[..|init|]) && p.id !in before
    ensures At(before[p.id := Declaration(paths[|init|], p.target, Missing)], init + [p], paths)
  {
    var after := before[p.id := Declaration(paths[|init|], p.target, Missing)];
    forall i | 0 <= i < |init|
      ensures (init + [p])[i].id in after && after[(init + [p])[i].id].path == paths[i]
    {
      assert init[i].id in before && before[init[i].id].path == paths[..|init|][i];
    }
  }

  lemma ReadIsReadable(ps: seq<Participant>) returns (paths: seq<Path>)
    requires ReadParticipants(ps).Success?
    ensures Readable(ps, paths) && At(ReadParticipants(ps).value, ps, paths)
  {
    ReadsAll(ps);
    var declared := ReadParticipants(ps).value;
    assert forall i :: 0 <= i < |ps| ==> ReadFrom(declared, ps[i]);
    paths := seq(|ps|, i requires 0 <= i < |ps| => declared[ps[i].id].path);
  }

  /** Relative root paths without "..", none of them repeated; the empty text and "." name none. */
  predicate ReadableRoots(raws: seq<string>, paths: seq<Path>) {
    && |paths| == |raws|
    && (forall i :: 0 <= i < |raws| ==> Spells(raws[i], paths[i]) && raws[i] != "" && raws[i] != ".")
    && (forall i, k :: 0 <= i < k < |raws| ==> paths[i] != paths[k])
  }

  function Elements(paths: seq<Path>): set<Path> {
    set p | p in paths
  }

  lemma ElementsOfMore(paths: seq<Path>)
    requires paths != []
    ensures Elements(paths) == Elements(paths[..|paths| - 1]) + {paths[|paths| - 1]}
  {
    assert paths == paths[..|paths| - 1] + [paths[|paths| - 1]];
  }

  lemma RootPathExactly(raw: string, path: Path)
    ensures RootPath(raw) == Success(path) <==> Spells(raw, path) && raw != "" && raw != "."
  {
  }

  lemma ReadsOneMoreRoot(raws: seq<string>, before: set<Path>, path: Path)
    requires raws != [] && ReadRootPaths(raws[..|raws| - 1]) == Success(before)
    requires RootPath(raws[|raws| - 1]) == Success(path) && path !in before
    ensures ReadRootPaths(raws) == Success(before + {path})
  {
  }

  lemma LastRoot(raws: seq<string>, paths: seq<Path>)
    requires raws != [] && ReadableRoots(raws, paths)
    ensures ReadableRoots(raws[..|raws| - 1], paths[..|raws| - 1])
    ensures RootPath(raws[|raws| - 1]) == Success(paths[|raws| - 1]) && paths[|raws| - 1] !in Elements(paths[..|raws| - 1])
  {
    RootPathExactly(raws[|raws| - 1], paths[|raws| - 1]);
  }

  lemma {:induction false} RootsAreRead(raws: seq<string>, paths: seq<Path>)
    requires ReadableRoots(raws, paths)
    ensures ReadRootPaths(raws) == Success(Elements(paths))
  {
    if raws != [] {
      var n := |raws| - 1;
      LastRoot(raws, paths);
      RootsAreRead(raws[..n], paths[..n]);
      ReadsOneMoreRoot(raws, Elements(paths[..n]), paths[n]);
      ElementsOfMore(paths);
    } else {
      assert Elements(paths) == {};
    }
  }

  lemma {:induction false} ReadRootsAreReadable(raws: seq<string>) returns (paths: seq<Path>)
    requires ReadRootPaths(raws).Success?
    ensures ReadableRoots(raws, paths) && ReadRootPaths(raws) == Success(Elements(paths))
  {
    paths := [];
    if raws != [] {
      var n := |raws| - 1;
      var init := ReadRootsAreReadable(raws[..n]);
      var path := RootPath(raws[n]).value;
      RootPathExactly(raws[n], path);
      assert path !in init by {
        assert path !in Elements(init);
      }
      paths := init + [path];
      assert Elements(paths) == Elements(init) + {path};
      forall i | 0 <= i < |raws|
        ensures Spells(raws[i], paths[i]) && raws[i] != "" && raws[i] != "."
      {
        assert i < n ==> raws[..n][i] == raws[i];
      }
    } else {
      assert Elements(paths) == {};
    }
  }

  // ----- The state of the children -----

  /** A participant at its gitlink in HEAD and clean, or neither in HEAD nor in the worktree. */
  predicate Startable(repo: Repository, path: Path) {
    if path in repo.head.tree then
      var entry := repo.head.tree[path];
      && entry.mode == GITLINK
      && path in repo.children && repo.children[path].clean && repo.children[path].head == entry.oid
      && entry.oid in repo.children[path].trees
    else path !in repo.children && forall q :: q in repo.head.tree ==> !(path <= q)
  }

  lemma StartableExactly(repo: Repository, path: Path)
    ensures StartsClean(repo, path) <==> Startable(repo, path)
  {
    if path in repo.head.tree {
      var entry := repo.head.tree[path];
      if entry.mode == GITLINK && path in repo.children && entry.oid in repo.children[path].trees {
        assert InitialIdentity(repo, repo.head, path)
            == Success(Present(Identity(entry.oid, repo.children[path].trees[entry.oid])));
      }
    } else if forall q :: q in repo.head.tree ==> !(path <= q) {
      assert InitialIdentity(repo, repo.head, path) == Success(Absent);
    } else {
      assert InitialIdentity(repo, repo.head, path).Failure?;
    }
  }

  /** The repositories still say what the journal says of the previous root. */
  predicate InitialStands(repo: Repository, root: Tree, d: Declaration) {
    if d.path in root then
      var entry := root[d.path];
      && entry.mode == GITLINK && d.path in repo.children && entry.oid in repo.children[d.path].trees
      && d.initial == Present(Identity(entry.oid, repo.children[d.path].trees[entry.oid]))
    else d.initial == Absent && forall q :: q in root ==> !(d.path <= q)
  }

  predicate AllStand(repo: Repository, j: Journal) {
    forall id :: id in j.declared ==> InitialStands(repo, j.previousRoot.tree, j.declared[id])
  }

  lemma AllStandExactly(repo: Repository, j: Journal)
    requires Sound(j)
    ensures InitialChildrenAgree(repo, j) <==> AllStand(repo, j)
    ensures InitialChildrenAgree(repo, j) ==> WithInitialChildren(repo, j) == j
  {
    if InitialChildrenAgree(repo, j) {
      SoundIsSettled(repo, j);
      forall id | id in j.declared
        ensures InitialStands(repo, j.previousRoot.tree, j.declared[id])
      {
        assert InitialIdentity(repo, j.previousRoot, j.declared[id].path) == Success(j.declared[id].initial);
      }
    }
    if AllStand(repo, j) {
      forall id | id in j.declared
        ensures InitialIdentity(repo, j.previousRoot, j.declared[id].path) == Success(j.declared[id].initial)
      {
        assert InitialStands(repo, j.previousRoot.tree, j.declared[id]);
      }
    }
  }

  // ----- begin -----

  ghost predicate RootsReadable(roots: seq<string>) {
    exists named :: ReadableRoots(roots, named)
  }

  ghost predicate AllStartable(repo: Repository, ps: seq<Participant>) {
    exists paths :: Readable(ps, paths) && forall i :: 0 <= i < |paths| ==> Startable(repo, paths[i])
  }

  lemma RootsReadableExactly(roots: seq<string>)
    ensures ReadRootPaths(roots).Success? <==> RootsReadable(roots)
  {
    if ReadRootPaths(roots).Success? {
      var named := ReadRootsAreReadable(roots);
    }
    if RootsReadable(roots) {
      var named :| ReadableRoots(roots, named);
      RootsAreRead(roots, named);
    }
  }

  lemma AllStartableExactly(repo: Repository, ps: seq<Participant>)
    ensures ReadParticipants(ps).Success? && AllStartClean(repo, ReadParticipants(ps).value) <==> AllStartable(repo, ps)
  {
    if ReadParticipants(ps).Success? && AllStartClean(repo, ReadParticipants(ps).value) {
      var paths := ReadIsReadable(ps);
      var declared := ReadParticipants(ps).value;
      forall i | 0 <= i < |paths|
        ensures Startable(repo, paths[i])
      {
        assert ps[i].id in declared && declared[ps[i].id].path == paths[i];
        StartableExactly(repo, paths[i]);
      }
    }
    if AllStartable(repo, ps) {
      var paths :| Readable(ps, paths) && forall i :: 0 <= i < |paths| ==> Startable(repo, paths[i]);
      ReadableIsRead(ps, paths);
      ReadsAll(ps);
      ReadStartClean(repo, ps, paths, ReadParticipants(ps).value);
    }
  }

  lemma ReadStartClean(repo: Repository, ps: seq<Participant>, paths: seq<Path>, declared: map<Id, Declaration>)
    requires At(declared, ps, paths) && ReadFromAll(declared, ps)
    requires forall i :: 0 <= i < |paths| ==> Startable(repo, paths[i])
    ensures AllStartClean(repo, declared)
  {
    forall id | id in declared
      ensures StartsClean(repo, declared[id].path)
    {
      assert HasId(ps, id);
      var i :| 0 <= i < |ps| && ps[i].id == id;
      assert declared[ps[i].id].path == paths[i];
      StartableExactly(repo, paths[i]);
    }
  }

  lemma NothingRead(ps: seq<Participant>)
    requires ReadParticipants(ps).Success?
    ensures ReadParticipants(ps).value == map[] <==> ps == []
  {
  }

  /**
   `begin` is accepted exactly for readable participants, each of them in place, on
   an accepted root without changes, for the checkpoint that comes next, while no
   journal is active.
   */
  lemma BeginExactly(c: Control, repo: Repository, k: nat, ps: seq<Participant>, roots: seq<string>)
    ensures Begin(c, repo, k, ps, roots).Success? <==>
              ps != [] && c.active == map[] && Beginnable(repo, k) && RootsReadable(roots) && AllStartable(repo, ps)
  {
    RootsReadableExactly(roots);
    AllStartableExactly(repo, ps);
    if ReadParticipants(ps).Success? {
      NothingRead(ps);
    }
  }

  // ----- declare-child, declare-root, record-child -----

  predicate IsDraft(c: Control, k: nat) {
    k <= 9999 && k in c.active && c.active[k].phase == PREPARE
  }

  /** The control directory with this active journal in place of the one of its name. */
  function Now(c: Control, k: nat, j: Journal): Control {
    Control(c.active[k := j], c.retired)
  }

  /** The journal has this participant at this path, and the children start where it says. */
  predicate IsParticipant(repo: Repository, j: Journal, id: Id, raw: string) {
    id in j.declared && SpellsChild(raw, j.declared[id].path) && AllStand(repo, j)
  }

  predicate AgreesWithTarget(d: Declaration, identity: Identity) {
    d.target == None || d.target == Some(identity)
  }

  lemma DeclareDecides(c: Control, repo: Repository, k: nat, j: Journal, id: Id, raw: string, target: Option<Identity>)
    requires SoundControl(c) && k in c.active && j == c.active[k]
    requires InitialChildrenAgree(repo, j) ==> WithInitialChildren(repo, j) == j
    ensures DeclareChild(c, repo, k, id, raw, target).Success? <==>
              && IsDraft(c, k) && InitialChildrenAgree(repo, j)
              && id in j.declared && ChildPath(raw) == Success(j.declared[id].path)
              && (j.declared[id].target == None || j.declared[id].target == target)
              && (id in j.recorded && target.Some? ==> j.recorded[id].identity == target.value)
    ensures DeclareChild(c, repo, k, id, raw, target).Success? ==>
              DeclareChild(c, repo, k, id, raw, target)
              == Success(Store(c, k, if j.declared[id].target.Some? then j else Targeted(j, id, target)))
  {
  }

  lemma TargetAgain(j: Journal, id: Id, target: Option<Identity>)
    requires id in j.declared && j.declared[id].target == target
    ensures j.(declared := j.declared[id := j.declared[id].(target := target)]) == j
  {
    assert j.declared[id := j.declared[id]] == j.declared;
  }

  /** A target is accepted when it changes neither an earlier one nor a record, and it is then in the journal. */
  lemma DeclareChildExactly(c: Control, repo: Repository, k: nat, id: Id, raw: string, target: Option<Identity>)
    requires SoundControl(c)
    ensures DeclareChild(c, repo, k, id, raw, target).Success? <==>
              && IsDraft(c, k) && IsParticipant(repo, c.active[k], id, raw)
              && (c.active[k].declared[id].target == None || c.active[k].declared[id].target == target)
              && (id in c.active[k].recorded && target.Some? ==> c.active[k].recorded[id].identity == target.value)
    ensures DeclareChild(c, repo, k, id, raw, target).Success? ==>
              var j := c.active[k];
              var d := j.declared[id].(target := target);
              DeclareChild(c, repo, k, id, raw, target) == Success(Now(c, k, j.(declared := j.declared[id := d])))
  {
    if k in c.active {
      AllStandExactly(repo, c.active[k]);
      if id in c.active[k].declared {
        ChildPathExactly(raw, c.active[k].declared[id].path);
        if c.active[k].declared[id].target == target {
          TargetAgain(c.active[k], id, target);
        }
      }
      DeclareDecides(c, repo, k, c.active[k], id, raw, target);
    }
  }

  lemma DeclareRootExactly(c: Control, k: nat, roots: seq<string>, named: seq<Path>)
    requires SoundControl(c)
    ensures DeclareRoot(c, k, roots).Success? ==> RootsReadable(roots)
    ensures ReadableRoots(roots, named) ==>
              (DeclareRoot(c, k, roots).Success? <==>
                 IsDraft(c, k) && c.active[k].allowlist in {{}, Elements(named)})
    ensures ReadableRoots(roots, named) && DeclareRoot(c, k, roots).Success? ==>
              DeclareRoot(c, k, roots) == Success(Now(c, k, c.active[k].(allowlist := Elements(named))))
  {
    RootsReadableExactly(roots);
    if ReadableRoots(roots, named) {
      RootsAreRead(roots, named);
    }
  }

  /**
   A child is recorded when its repository is clean at the identity, which no
   target and no earlier record contradicts.  The last check compares the path as
   it was typed.
   */
  lemma RecordChildExactly(c: Control, repo: Repository, k: nat, id: Id, raw: string, identity: Identity)
    requires SoundControl(c)
    ensures RecordChild(c, repo, k, id, raw, identity).Success? <==>
              && IsDraft(c, k) && IsParticipant(repo, c.active[k], id, raw)
              && AgreesWithTarget(c.active[k].declared[id], identity)
              && CleanAt(repo, c.active[k].declared[id].path, identity)
              && (id in c.active[k].recorded ==> c.active[k].recorded[id].identity == identity)
              && (forall other :: other in c.active[k].recorded && other != id ==>
                    c.active[k].recorded[other].path != PosixPath.Split(raw))
    ensures RecordChild(c, repo, k, id, raw, identity).Success? ==>
              var j := c.active[k];
              var record := Record(j.declared[id].path, identity);
              RecordChild(c, repo, k, id, raw, identity) == Success(Now(c, k, j.(recorded := j.recorded[id := record])))
  {
    if k in c.active {
      AllStandExactly(repo, c.active[k]);
      if id in c.active[k].declared {
        ChildPathExactly(raw, c.active[k].declared[id].path);
      }
    }
    if RecordChild(c, repo, k, id, raw, identity).Success? {
      RecordChildStores(c, repo, k, id, raw, identity);
    }
  }

  // ----- prepare-root -----

  /** The index publishes each record as a gitlink that replaces another one or nothing, and no other project changes. */
  predicate PublishesRecords(before: Tree, index: Tree, j: Journal) {
    && (forall id :: id in j.recorded ==>
          var path, link := j.recorded[id].path, TreeEntry(GITLINK, j.recorded[id].identity.head);
          && path in index && index[path] == link
          && (path in before ==> before[path].mode == GITLINK && before[path] != link))
    && (forall p :: p in before && UnderProjects(p) && p !in RecordedPaths(j) ==> p in index && index[p] == before[p])
    && (forall p :: p in index && UnderProjects(p) && p !in RecordedPaths(j) ==> p in before)
  }

  function RecordedPaths(j: Journal): set<Path> {
    set id | id in j.recorded :: j.recorded[id].path
  }

  lemma PublishedExactly(before: Tree, index: Tree, j: Journal)
    requires Sound(j) && j.declared.Keys == j.recorded.Keys
    ensures (forall id :: id in j.recorded ==> StagedAt(index, j.recorded[id].path, j.recorded[id].identity.head))
            && GitlinksMatch(before, index, DeclaredPaths(j))
       <==> PublishesRecords(before, index, j)
  {
    assert DeclaredPaths(j) == RecordedPaths(j);
    var links := forall id :: id in j.recorded ==> StagedAt(index, j.recorded[id].path, j.recorded[id].identity.head);
    if links && GitlinksMatch(before, index, DeclaredPaths(j)) {
      MatchedPublishes(before, index, j);
    }
    if PublishesRecords(before, index, j) {
      PublishedMatches(before, index, j);
    }
  }

  lemma MatchedPublishes(before: Tree, index: Tree, j: Journal)
    requires RecordedPaths(j) == DeclaredPaths(j) && GitlinksMatch(before, index, RecordedPaths(j))
    requires forall id :: id in j.recorded ==> StagedAt(index, j.recorded[id].path, j.recorded[id].identity.head)
    ensures PublishesRecords(before, index, j)
  {
    forall id | id in j.recorded
      ensures var path, link := j.recorded[id].path, TreeEntry(GITLINK, j.recorded[id].identity.head);
              && path in index && index[path] == link
              && (path in before ==> before[path].mode == GITLINK && before[path] != link)
    {
      var path := j.recorded[id].path;
      assert path in RecordedPaths(j) && path in ChangedProjects(before, index);
      assert PublishesGitlink(RawRecord(ModeAt(before, path), ModeAt(index, path), path));
    }
    forall p | UnderProjects(p) && p !in RecordedPaths(j)
      ensures EntryAt(before, p) == EntryAt(index, p)
    {
      assert p !in ChangedProjects(before, index);
    }
  }

  lemma PublishedMatches(before: Tree, index: Tree, j: Journal)
    requires PublishesRecords(before, index, j) && forall id :: id in j.recorded ==> IsChildPath(j.recorded[id].path)
    ensures GitlinksMatch(before, index, RecordedPaths(j))
    ensures forall id :: id in j.recorded ==> StagedAt(index, j.recorded[id].path, j.recorded[id].identity.head)
  {
    forall p
      ensures p in ChangedProjects(before, index) <==> p in RecordedPaths(j)
    {
    }
  }

  lemma PrepareDecides(c: Control, repo: Repository, k: nat, j: Journal)
    requires SoundControl(c) && k in c.active && j == c.active[k]
    requires InitialChildrenAgree(repo, j) ==> WithInitialChildren(repo, j) == j
    ensures PrepareRoot(c, repo, k).Success? <==>
              && IsDraft(c, k) && InitialChildrenAgree(repo, j) && j.declared.Keys == j.recorded.Keys
              && RecordsStaged(repo, j) && GitlinksMatch(j.previousRoot.tree, repo.index, DeclaredPaths(j))
              && j.allowlist != {} && StagedNames(repo) == j.allowlist && repo.worktreeClean
    ensures PrepareRoot(c, repo, k).Success? ==> PrepareRoot(c, repo, k) == Success(Store(c, k, Prepared(j, repo.index)))
  {
  }

  lemma StagedExactly(repo: Repository, j: Journal)
    ensures RecordsStaged(repo, j) <==>
              && ChildrenClean(repo, j)
              && forall id :: id in j.recorded ==> StagedAt(repo.index, j.recorded[id].path, j.recorded[id].identity.head)
  {
  }

  /**
   `prepare-root` is accepted exactly when every participant has been recorded and
   is clean there, the index publishes the records and nothing else under
   projects, the staged names are the allowlist, and nothing else is pending.
   */
  lemma PrepareRootExactly(c: Control, repo: Repository, k: nat)
    requires SoundControl(c)
    ensures PrepareRoot(c, repo, k).Success? <==>
              && IsDraft(c, k) && AllStand(repo, c.active[k])
              && c.active[k].declared.Keys == c.active[k].recorded.Keys && ChildrenClean(repo, c.active[k])
              && PublishesRecords(c.active[k].previousRoot.tree, repo.index, c.active[k])
              && c.active[k].allowlist != {} && c.active[k].allowlist == StagedNames(repo) && repo.worktreeClean
    ensures PrepareRoot(c, repo, k).Success? ==>
              PrepareRoot(c, repo, k)
              == Success(Now(c, k, c.active[k].(phase := PREPARED, expectedTree := Some(repo.index))))
  {
    if k in c.active {
      AllStandExactly(repo, c.active[k]);
      PrepareDecides(c, repo, k, c.active[k]);
      if c.active[k].declared.Keys == c.active[k].recorded.Keys {
        StagedExactly(repo, c.active[k]);
        PublishedExactly(c.active[k].previousRoot.tree, repo.index, c.active[k]);
      }
    }
  }

  // ----- finalize -----

  /** The prepared tree is the commit on the previous root, for this checkpoint, and everything is clean. */
  predicate InPlace(repo: Repository, k: nat, j: Journal) {
    && repo.head.Child? && repo.head.parent == j.previousRoot && j.expectedTree == Some(repo.head.tree)
    && repo.head.message.wellFormed && repo.head.message.checkpoints == [k] && repo.checkpoint == k
    && NothingPending(repo) && repo.accepted && AllStand(repo, j) && ChildrenClean(repo, j)
    && (j.phase == COMMITTED ==> j.coordinator == Some(repo.head))
  }

  lemma InPlaceExactly(repo: Repository, j: Journal)
    requires Sound(j)
    ensures CommitInPlace(repo, j) <==> InPlace(repo, j.checkpoint, j)
  {
    AllStandExactly(repo, j);
  }

  lemma NotRefused(c: Control, repo: Repository, k: nat, j: Journal)
    requires Refusal(c, repo, k, j).None? && InitialChildrenAgree(repo, j) && j.checkpoint == k
    ensures j.phase != PREPARE && CommitInPlace(repo, j)
  {
  }

  lemma ChecksAre(c: Control, repo: Repository, k: nat, j: Journal, refusal: Option<Error>)
    requires k in c.active && j == c.active[k] && InitialChildrenAgree(repo, j) && WithInitialChildren(repo, j) == j
    requires refusal == Refusal(c, repo, k, j)
    ensures FinalizeChecks(c, repo, k).Success? <==> k <= 9999 && refusal.None?
  {
  }

  lemma ChecksNeedAgreement(c: Control, repo: Repository, k: nat)
    requires FinalizeChecks(c, repo, k).Success?
    ensures k <= 9999 && k in c.active && InitialChildrenAgree(repo, c.active[k])
  {
  }

  lemma ChecksNeedPlace(c: Control, repo: Repository, k: nat)
    requires SoundControl(c) && FinalizeChecks(c, repo, k).Success?
    ensures k <= 9999 && k in c.active && c.active[k].phase != PREPARE && CommitInPlace(repo, c.active[k])
  {
    ChecksNeedAgreement(c, repo, k);
    var j := c.active[k];
    SoundIsSettled(repo, j);
    ChecksAre(c, repo, k, j, Refusal(c, repo, k, j));
    NotRefused(c, repo, k, j);
  }

  /** The journal as `finalize` marks it. */
  function Marked(j: Journal, repo: Repository, at: string): Journal {
    if j.phase == PREPARED then j.(phase := COMMITTED, coordinator := Some(repo.head), committedAt := at) else j
  }

  predicate IsFinal(c: Control, repo: Repository, k: nat) {
    k <= 9999 && k in c.active && c.active[k].phase != PREPARE && InPlace(repo, k, c.active[k])
  }

  /**
   `finalize` is accepted exactly for a prepared or marked journal whose commit is
   in place, unless a mark has no time or another retired journal has the name;
   the journal is then retired with its mark.
   */
  lemma FinalizeAccepted(c: Control, repo: Repository, k: nat, at: string)
    requires SoundControl(c)
    ensures Finalize(c, repo, k, at).error.None? <==>
              && IsFinal(c, repo, k)
              && (c.active[k].phase == COMMITTED ==> c.active[k].committedAt != "")
              && (k in c.retired ==> c.retired[k] == Marked(c.active[k], repo, at))
    ensures Finalize(c, repo, k, at).error.None? ==>
              Finalize(c, repo, k, at).control == Control(map[], c.retired[k := Marked(c.active[k], repo, at)])
  {
    if FinalizeChecks(c, repo, k).Success? {
      ChecksNeedPlace(c, repo, k);
      InPlaceExactly(repo, c.active[k]);
    }
    if IsFinal(c, repo, k) {
      InPlaceExactly(repo, c.active[k]);
      FinalizeExactly(c, repo, k, at);
    }
  }
}
