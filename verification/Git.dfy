/**
 Git as far as the transaction journal looks at it.  Objects are named by
 their content, which is what an injective object hash amounts to: two trees or
 commits with one name are the same tree or commit.
 */
module Git {
  import opened Wrappers

  /** A path as its components, "projects/x" being ["projects", "x"]. */
  type Path = seq<string>

  /** The name of a commit or tree of a child repository. */
  type ObjectId = nat

  datatype Mode = REGULAR | EXECUTABLE | SYMLINK | GITLINK

  datatype TreeEntry = TreeEntry(mode: Mode, oid: ObjectId)

  /** The whole content of a tree or of the index, flattened. */
  type Tree = map<Path, TreeEntry>

  datatype Message = Message(wellFormed: bool, checkpoints: seq<nat>)

  datatype Commit =
    | Root(tree: Tree, message: Message)
    | Child(parent: Commit, tree: Tree, message: Message)

  /** One child repository: HEAD, whether `status` is empty, and the trees of the commits it holds. */
  datatype ChildRepository = ChildRepository(head: ObjectId, clean: bool, trees: map<ObjectId, ObjectId>)

  /**
   The coordinator worktree as one command finds it.  `renamed` are the paths
   that git, by its own similarity measure, takes for the sources of renames.
   */
  datatype Repository = Repository(
    head: Commit,
    index: Tree,
    renamed: set<Path>,
    worktreeClean: bool,
    children: map<Path, ChildRepository>,
    checkpoint: nat,
    accepted: bool)

  function EntryAt(t: Tree, p: Path): Option<TreeEntry> {
    if p in t then Some(t[p]) else None
  }

  /** The paths at which two trees differ. */
  function Changed(before: Tree, after: Tree): set<Path> {
    set p | p in before.Keys + after.Keys && EntryAt(before, p) != EntryAt(after, p)
  }

  predicate UnderProjects(p: Path) {
    |p| > 0 && p[0] == "projects"
  }

  /** What a list of names leaves out: of a staged rename it shows the destination only. */
  function RenameSources(r: Repository): set<Path> {
    r.renamed * (r.head.tree.Keys - r.index.Keys)
  }

  /** `git diff --cached --name-only`, with the rename detection that is git's default. */
  function StagedNames(r: Repository): set<Path> {
    Changed(r.head.tree, r.index) - RenameSources(r)
  }

  function ChangedProjects(before: Tree, after: Tree): set<Path> {
    set p | p in Changed(before, after) && UnderProjects(p)
  }

  /** `git status` prints nothing. */
  predicate StatusClean(r: Repository) {
    r.index == r.head.tree && r.worktreeClean
  }

  /** One record of `git diff --raw --no-renames -- projects`; an absent side has mode 000000. */
  datatype RawRecord = RawRecord(oldMode: Option<Mode>, newMode: Option<Mode>, path: Path)

  function ModeAt(t: Tree, p: Path): Option<Mode> {
    if p in t then Some(t[p].mode) else None
  }

  function PathsOf(records: seq<RawRecord>): set<Path> {
    set r | r in records :: r.path
  }

  /** The records list every changed path under projects once, in some order, with its two modes. */
  predicate IsRawDiff(records: seq<RawRecord>, before: Tree, after: Tree) {
    && PathsOf(records) == ChangedProjects(before, after)
    && (forall i :: 0 <= i < |records| ==>
          records[i].oldMode == ModeAt(before, records[i].path) && records[i].newMode == ModeAt(after, records[i].path))
    && (forall i, j :: 0 <= i < j < |records| ==> records[i].path != records[j].path)
  }
}
