/** The runtime bundle: what the builder walks, merges and follows until nothing is missing. */
module BundleClosure {
  import opened PosixPath
  import opened Wrappers

  /** An absolute lexical path. */
  datatype Path = Path(parts: seq<string>) {
    function Child(name: string): Path {
      Path(parts + [name])
    }

    predicate Within(root: Path) {
      root.parts <= parts
    }
  }

  /** `realpath` of a link is given; it names no link, and need not exist. */
  datatype Node =
    | Directory(children: seq<string>)
    | File(size: nat, strings: Option<set<string>>)
    | Link(resolved: Path)
    | Special

  /** A finite static tree in which only last components are links. */
  type Tree = map<Path, Node>

  ghost predicate IsTree(tree: Tree) {
    && (forall p {:trigger tree[p].resolved} ::
          p in tree && tree[p].Link? && tree[p].resolved in tree ==> !tree[tree[p].resolved].Link?)
    && (forall p, c {:trigger c in tree[p].children} :: p in tree && tree[p].Directory? && c in tree[p].children ==> p.Child(c) in tree)
  }

  function Real(tree: Tree, p: Path): Path {
    if p in tree && tree[p].Link? then tree[p].resolved else p
  }

  /** What walking a path leads to next. */
  function Next(tree: Tree, p: Path): set<Path> {
    if p !in tree then {}
    else
      match tree[p]
      case Directory(children) => set c | c in children :: p.Child(c)
      case Link(resolved) => if resolved in tree then {resolved} else {}
      case _ => {}
  }

  datatype SourceRoot = SourceRoot(path: Path, guest: Path)

  /** The configuration of a builder; the roots are sorted longest first. */
  datatype Setup = Setup(
    tree: Tree,
    roots: seq<SourceRoot>,
    allowed: seq<Path>,
    guest: Path,
    envPrefix: string,
    followExternal: bool)

  predicate Allowed(s: Setup, p: Path) {
    exists i :: 0 <= i < |s.allowed| && Real(s.tree, p).Within(s.allowed[i])
  }

  /** `_root_rank`: the first root the path lies in. */
  function RankFrom(roots: seq<SourceRoot>, p: Path, i: nat): (rank: Option<nat>)
    requires i <= |roots|
    ensures rank.Some? ==> i <= rank.value < |roots| && p.Within(roots[rank.value].path)
    ensures forall j :: i <= j < (if rank.Some? then rank.value else |roots|) ==> !p.Within(roots[j].path)
    decreases |roots| - i
  {
    if i == |roots| then None else if p.Within(roots[i].path) then Some(i) else RankFrom(roots, p, i + 1)
  }

  function Rank(s: Setup, p: Path): Option<nat> {
    RankFrom(s.roots, p, 0)
  }

  function RankOf(s: Setup, p: Path): nat {
    if Rank(s, p).Some? then Rank(s, p).value else |s.roots|
  }

  /** `_archive_name`: the guest path, from the first root the path lies in. */
  function ArchiveName(s: Setup, p: Path): (name: Option<Path>)
    ensures name.Some? <==> exists i :: 0 <= i < |s.roots| && p.Within(s.roots[i].path)
  {
    var rank := Rank(s, p);
    if rank.None? then None
    else
      var root := s.roots[rank.value];
      Some(Path(root.guest.parts + p.parts[|root.path.parts|..]))
  }

  /** Root i is the first one that the path lies in. */
  predicate FirstRoot(s: Setup, p: Path, i: nat) {
    i < |s.roots| && s.roots[i].path.parts <= p.parts && forall j :: 0 <= j < i ==> !(s.roots[j].path.parts <= p.parts)
  }

  /** The guest path: the guest side of the first root the path lies in, with the rest of the path below it. */
  ghost predicate GuestPath(s: Setup, p: Path, n: Path) {
    exists i: nat, rest :: FirstRoot(s, p, i)
      && p.parts == s.roots[i].path.parts + rest && n.parts == s.roots[i].guest.parts + rest
  }

  lemma RankExactly(s: Setup, p: Path, i: nat)
    ensures Rank(s, p) == Some(i) <==> FirstRoot(s, p, i)
    ensures RankOf(s, p) == |s.roots| <==> forall j :: 0 <= j < |s.roots| ==> !(s.roots[j].path.parts <= p.parts)
    ensures RankOf(s, p) == i && i < |s.roots| <==> FirstRoot(s, p, i)
  {
    if Rank(s, p).Some? {
      assert p.Within(s.roots[Rank(s, p).value].path);
    }
    if FirstRoot(s, p, i) {
      assert p.Within(s.roots[i].path);
    }
  }

  lemma GuestPathExactly(s: Setup, p: Path, n: Path)
    ensures ArchiveName(s, p) == Some(n) <==> GuestPath(s, p, n)
  {
    if ArchiveName(s, p) == Some(n) {
      var i := Rank(s, p).value;
      RankExactly(s, p, i);
      var rest := p.parts[|s.roots[i].path.parts|..];
      assert FirstRoot(s, p, i) && p.parts == s.roots[i].path.parts + rest && n.parts == s.roots[i].guest.parts + rest;
    }
    if GuestPath(s, p, n) {
      var i: nat, rest :| FirstRoot(s, p, i) && p.parts == s.roots[i].path.parts + rest && n.parts == s.roots[i].guest.parts + rest;
      RankExactly(s, p, i);
      assert p.parts[|s.roots[i].path.parts|..] == rest;
    }
  }

  // ----- References in control manifests -----

  predicate EndsWith(s: string, suffix: string) {
    |suffix| <= |s| && s[|s| - |suffix|..] == suffix
  }

  predicate Mentions(s: string, part: string) {
    exists i :: 0 <= i <= |s| && part <= s[i..]
  }

  predicate IsControl(p: Path) {
    p.parts != [] &&
    var name := p.parts[|p.parts| - 1];
    name == "manifest.json" || EndsWith(name, ".manifest.json") || name == "active-product" || name == "active-rocm-pytorch"
  }

  const MANIFEST_LIMIT: nat := 64 * 1024 * 1024

  predicate IsAbsolute(value: string) {
    |value| > 0 && value[0] == '/'
  }

  /** A value below the two-slash root of POSIX, a name that no source root contains. */
  predicate TwoSlashes(value: string) {
    IsAbsolute(value) && |value| > 1 && value[1] == '/' && (|value| == 2 || value[2] != '/')
  }

  predicate Usable(value: string) {
    IsAbsolute(value) && '\0' !in value && !TwoSlashes(value)
  }

  function Components(value: string): seq<string> {
    Parts(Split(value))
  }

  /** The reference below the first root that stands for the guest root and has it. */
  function InRoots(s: Setup, relative: seq<string>, i: nat): (p: Option<Path>)
    requires i <= |s.roots|
    ensures p.Some? ==> p.value in s.tree
    decreases |s.roots| - i
  {
    if i == |s.roots| then None
    else
      var candidate := Path(Collapse(s.roots[i].path.parts + relative));
      if s.roots[i].guest == s.guest && candidate in s.tree then Some(candidate) else InRoots(s, relative, i + 1)
  }

  /** `_resolve_manifest_reference`. */
  function ResolveReference(s: Setup, value: string): (p: Option<Path>)
    ensures p.Some? ==> p.value in s.tree
  {
    if !Usable(value) then None
    else if Path(Collapse(Components(value))) in s.tree then Some(Path(Collapse(Components(value))))
    else if s.guest.parts <= Components(value) then InRoots(s, Components(value)[|s.guest.parts|..], 0)
    else None
  }

  function GuestRelative(s: Setup, p: Path): Option<seq<string>> {
    var name := ArchiveName(s, p);
    if name.Some? && name.value.Within(s.guest) then Some(name.value.parts[|s.guest.parts|..]) else None
  }

  predicate Skipped(s: Setup, p: Path) {
    var relative := GuestRelative(s, p);
    || relative.None? || relative.value == []
    || relative.value[0] in {"artifacts", "cache", "logs", "tmp", "runs", "downloads"}
    || ["env", "product-state"] <= relative.value
  }

  predicate RuntimePart(part: string) {
    "product-v1-" <= part || "rocm-pytorch-" <= part || "gfx950-" <= part || "hip-facade-stage" <= part
  }

  predicate RuntimeDirectory(s: Setup, p: Path) {
    var relative := GuestRelative(s, p);
    && relative.Some? && relative.value != []
    && (relative.value[0] == "models"
        || (relative.value[0] == "env" && exists i :: 0 <= i < |relative.value| && RuntimePart(relative.value[i])))
  }

  predicate IsDirectory(tree: Tree, p: Path) {
    Real(tree, p) in tree && tree[Real(tree, p)].Directory?
  }

  /** The path a value of a control manifest makes part of the bundle, if any. */
  function Reference(s: Setup, value: string): (p: Option<Path>)
    ensures p.Some? ==> p.value in s.tree
  {
    var p := ResolveReference(s, value);
    if p.None? || !Allowed(s, p.value) || Skipped(s, p.value) then None
    else if IsDirectory(s.tree, p.value) && !RuntimeDirectory(s, p.value) then None
    else p
  }

  /** An existing path that is allowed, but spelled below the two-slash root. */
  predicate NamelessReference(s: Setup, value: string) {
    && TwoSlashes(value) && '\0' !in value
    && (var p := Path(Collapse(Components(value))); p in s.tree && Allowed(s, p))
  }

  /** The values that stop the builder. */
  predicate Refused(s: Setup, value: string, strict: bool) {
    && IsAbsolute(value)
    && (|| Mentions(value, "amdgpu-sim-fastcopy")
        || (ResolveReference(s, value).None? && strict && s.envPrefix <= value)
        || (var p := ResolveReference(s, value); p.Some? && Allowed(s, p.value) && ArchiveName(s, p.value).None?)
        || NamelessReference(s, value))
  }

  function StringsOf(tree: Tree, p: Path): set<string> {
    if p in tree && tree[p].File? && tree[p].strings.Some? then tree[p].strings.value else {}
  }

  // ----- The builder's rules -----

  /** What the builder asks of its configuration. */
  datatype Rules = Rules(
    name: Path -> Option<Path>,
    rank: Path -> nat,
    allows: Path -> bool,
    follows: bool,
    reference: string -> Option<Path>,
    refused: (string, bool) -> bool)

  function RulesOf(s: Setup): Rules {
    Rules(
      p => ArchiveName(s, p), p => RankOf(s, p), p => Allowed(s, p), s.followExternal, value => Reference(s, value),
      (value, strict) => Refused(s, value, strict))
  }

  /** What a control manifest refers to. */
  ghost predicate References(tree: Tree, rules: Rules, manifest: Path, p: Path) {
    exists value :: value in StringsOf(tree, manifest) && rules.reference(value) == Some(p)
  }

  // ----- The builder -----

  datatype Kind = FileKind | DirectoryKind | LinkKind(present: bool)

  datatype Entry = Entry(source: Path, kind: Kind)

  function KindOf(tree: Tree, p: Path): Kind
    requires p in tree && !tree[p].Special?
  {
    match tree[p]
    case Directory(_) => DirectoryKind
    case File(_, _) => FileKind
    case Link(resolved) => LinkKind(resolved in tree)
    case Special => assert false; FileKind
  }

  /** A set that walking and following references never leaves. */
  ghost predicate IsBound(tree: Tree, rules: Rules, bound: set<Path>) {
    && (forall p, q {:trigger q in Next(tree, p)} :: p in bound && q in Next(tree, p) ==> q in bound)
    && (forall m, p :: m in bound && IsControl(m) && References(tree, rules, m, p) ==> p in bound)
  }

  /** Walked directories are visited, and only paths of the tree are walked or parsed. */
  ghost predicate Tracked(tree: Tree, visited: set<Path>, parsed: set<Path>, walked: set<Path>) {
    && walked <= tree.Keys && visited <= walked && parsed <= tree.Keys
    && forall p :: p in walked && tree[p].Directory? ==> p in visited
  }

  /** The entry says what its source is, and is filed under its source's name. */
  ghost predicate IsEntry(tree: Tree, rules: Rules, n: Path, e: Entry) {
    && e.source in tree && !tree[e.source].Special?
    && rules.name(e.source) == Some(n) && e.kind == KindOf(tree, e.source)
  }

  /** Entries and walked paths correspond. */
  ghost predicate Mapped(tree: Tree, rules: Rules, entries: map<Path, Entry>, walked: set<Path>) {
    && (forall p {:trigger rules.name(p)} :: p in walked ==> rules.name(p).Some? && rules.name(p).value in entries)
    && (forall n {:trigger entries[n]} :: n in entries ==> entries[n].source in walked && IsEntry(tree, rules, n, entries[n]))
  }

  /** Everything walked has its next paths walked, but for the walks in progress. */
  ghost predicate ClosedBut(tree: Tree, walked: set<Path>, open: set<Path>) {
    forall p, q {:trigger q in Next(tree, p)} :: p in walked && p !in open && q in Next(tree, p) ==> q in walked
  }

  /** A path that cannot be archived, or a link that leaves the allowed roots. */
  predicate Unarchivable(tree: Tree, rules: Rules, p: Path) {
    && p in tree
    && (rules.name(p).None? || tree[p].Special? || (tree[p].Link? && !rules.allows(tree[p].resolved)))
  }

  ghost predicate AllArchivable(tree: Tree, rules: Rules, walked: set<Path>) {
    forall p {:trigger Unarchivable(tree, rules, p)} :: p in walked ==> !Unarchivable(tree, rules, p)
  }

  /** Two different files of one root with one guest path. */
  predicate Conflict(tree: Tree, rules: Rules, p: Path, q: Path) {
    && p in tree && q in tree && rules.name(p).Some? && rules.name(p) == rules.name(q)
    && Real(tree, p) != Real(tree, q) && rules.rank(p) == rules.rank(q)
  }

  ghost predicate WalkObstacle(tree: Tree, rules: Rules, bound: set<Path>) {
    || (exists p {:trigger Unarchivable(tree, rules, p)} :: p in bound && Unarchivable(tree, rules, p))
    || (exists p, q {:trigger Conflict(tree, rules, p, q)} :: p in bound && q in bound && Conflict(tree, rules, p, q))
  }

  /** A control manifest that cannot be read, or names something that is refused. */
  predicate BadManifest(tree: Tree, rules: Rules, strict: bool, m: Path) {
    && m in tree && tree[m].File? && IsControl(m)
    && (|| tree[m].size > MANIFEST_LIMIT || tree[m].strings.None?
        || exists value :: value in StringsOf(tree, m) && rules.refused(value, strict))
  }

  ghost predicate AllGood(tree: Tree, rules: Rules, strict: bool, manifests: set<Path>) {
    forall m {:trigger BadManifest(tree, rules, strict, m)} :: m in manifests ==> !BadManifest(tree, rules, strict, m)
  }

  /** What can stop the builder, among the paths of a set. */
  ghost predicate Obstacle(tree: Tree, rules: Rules, strict: bool, bound: set<Path>) {
    || WalkObstacle(tree, rules, bound)
    || exists m :: m in bound && BadManifest(tree, rules, strict, m)
  }

  /** What merging an entry does: a lower root wins, and the same file is no conflict. */
  predicate Merged(tree: Tree, rules: Rules, entries: map<Path, Entry>, name: Path, entry: Entry,
                   merged: map<Path, Entry>)
  {
    && name in merged
    && merged == entries[name := merged[name]]
    && (if name !in entries then merged[name] == entry
        else
          var prior := entries[name];
          if Real(tree, prior.source) == Real(tree, entry.source) then merged[name] == prior
          else
            && rules.rank(prior.source) != rules.rank(entry.source)
            && merged[name] == if rules.rank(entry.source) < rules.rank(prior.source) then entry else prior)
  }

  lemma MergedKeepsMapped(tree: Tree, rules: Rules, entries: map<Path, Entry>, walked: set<Path>, name: Path,
                          entry: Entry, merged: map<Path, Entry>)
    requires Mapped(tree, rules, entries, walked) && IsEntry(tree, rules, name, entry)
    requires Merged(tree, rules, entries, name, entry, merged)
    ensures Mapped(tree, rules, merged, walked + {entry.source})
    ensures entries.Keys <= merged.Keys
  {
  }

  // ----- Overrides -----

  /** The two paths have one guest path. */
  predicate Kin(rules: Rules, p: Path, q: Path) {
    rules.name(p).Some? && rules.name(p) == rules.name(q)
  }

  /** The paths of the set with the guest path of this one are different files. */
  ghost predicate Plain(tree: Tree, rules: Rules, walked: set<Path>, p: Path) {
    forall q, r {:trigger Kin(rules, p, q), Kin(rules, p, r)} ::
      q in walked && r in walked && Kin(rules, p, q) && Kin(rules, p, r) && q != r ==> Real(tree, q) != Real(tree, r)
  }

  ghost predicate Lowest(rules: Rules, walked: set<Path>, p: Path) {
    forall q {:trigger Kin(rules, p, q)} :: q in walked && Kin(rules, p, q) ==> rules.rank(p) <= rules.rank(q)
  }

  /** Of different files with one guest path, the entry is the only one of the lowest root. */
  ghost predicate Layered(tree: Tree, rules: Rules, entries: map<Path, Entry>, walked: set<Path>) {
    forall p {:trigger Plain(tree, rules, walked, p)} ::
      p in walked && Plain(tree, rules, walked, p) && rules.name(p).Some? && rules.name(p).value in entries ==>
        var source := entries[rules.name(p).value].source;
        source == p || rules.rank(source) < rules.rank(p)
  }

  lemma MergedKeepsLayered(tree: Tree, rules: Rules, entries: map<Path, Entry>, walked: set<Path>, name: Path,
                           entry: Entry, merged: map<Path, Entry>)
    requires Mapped(tree, rules, entries, walked) && Layered(tree, rules, entries, walked)
    requires IsEntry(tree, rules, name, entry) && Merged(tree, rules, entries, name, entry, merged)
    ensures Layered(tree, rules, merged, walked + {entry.source})
  {
    var path := entry.source;
    var after := walked + {path};
    forall p | p in after && Plain(tree, rules, after, p) && rules.name(p).Some? && rules.name(p).value in merged
      ensures var source := merged[rules.name(p).value].source; source == p || rules.rank(source) < rules.rank(p)
    {
      assert Plain(tree, rules, walked, p);
      if rules.name(p) == Some(name) && name in entries {
        var prior := entries[name].source;
        assert prior in walked && Kin(rules, p, prior) && Kin(rules, p, path);
      }
    }
  }

  /** A manifest that no other path of the set can keep out of the archive. */
  ghost predicate Live(tree: Tree, rules: Rules, walked: set<Path>, m: Path) {
    && Plain(tree, rules, walked, m)
    && forall q {:trigger Kin(rules, m, q)} ::
         q in walked && q != m && Kin(rules, m, q) ==> rules.rank(m) < rules.rank(q)
  }

  /** Walking and following the references of live manifests does not leave the set. */
  ghost predicate IsLiveBound(tree: Tree, rules: Rules, walked: set<Path>) {
    && ClosedBut(tree, walked, {})
    && forall m, p {:trigger References(tree, rules, m, p)} ::
         m in walked && IsControl(m) && Live(tree, rules, walked, m) && References(tree, rules, m, p) ==> p in walked
  }

  /** An obstacle that nothing in the set overrides. */
  ghost predicate LiveObstacle(tree: Tree, rules: Rules, strict: bool, walked: set<Path>) {
    || (exists p {:trigger Unarchivable(tree, rules, p)} :: p in walked && Unarchivable(tree, rules, p))
    || (exists p, q {:trigger Conflict(tree, rules, p, q)} ::
          && p in walked && q in walked && Conflict(tree, rules, p, q)
          && Plain(tree, rules, walked, p) && Lowest(rules, walked, p))
    || exists m {:trigger BadManifest(tree, rules, strict, m)} ::
         m in walked && Live(tree, rules, walked, m) && BadManifest(tree, rules, strict, m)
  }

  /** References exist and lie in the allowed roots. */
  ghost predicate SoundReferences(tree: Tree, rules: Rules) {
    forall value {:trigger rules.reference(value)} ::
      rules.reference(value).Some? ==> rules.reference(value).value in tree && rules.allows(rules.reference(value).value)
  }

  class BundleBuilder {
    const tree: Tree
    const rules: Rules
    var entries: map<Path, Entry>
    var visited: set<Path>
    var parsed: set<Path>
    var overridden: seq<(Path, Path)>
    /** Every path that has been walked. */
    ghost var walked: set<Path>

    constructor (tree: Tree, rules: Rules)
      requires IsTree(tree)
      ensures this.tree == tree && this.rules == rules
      ensures Valid() && Closed({}) && entries == map[] && walked == {} && parsed == {}
    {
      this.tree, this.rules := tree, rules;
      entries, visited, parsed, overridden, walked := map[], {}, {}, [], {};
    }

    ghost predicate Valid()
      reads this
    {
      && IsTree(tree)
      && Tracked(tree, visited, parsed, walked)
      && Mapped(tree, rules, entries, walked)
      && AllArchivable(tree, rules, walked)
      && Layered(tree, rules, entries, walked)
    }

    ghost predicate Closed(open: set<Path>)
      reads this
    {
      ClosedBut(tree, walked, open)
    }

    /** `_merge_entry`. */
    method MergeEntry(name: Path, entry: Entry) returns (ok: bool)
      modifies this`entries, this`overridden
      ensures ok <==>
                || name !in old(entries)
                || Real(tree, old(entries)[name].source) == Real(tree, entry.source)
                || rules.rank(old(entries)[name].source) != rules.rank(entry.source)
      ensures ok ==> Merged(tree, rules, old(entries), name, entry, entries)
      ensures !ok ==> entries == old(entries)
    {
      if name !in entries {
        entries := entries[name := entry];
        return true;
      }
      var prior := entries[name];
      if Real(tree, prior.source) == Real(tree, entry.source) {
        return true;
      }
      var priorRank, entryRank := rules.rank(prior.source), rules.rank(entry.source);
      if priorRank == entryRank {
        return false;
      }
      if entryRank < priorRank {
        entries := entries[name := entry];
        overridden := overridden + [(entry.source, prior.source)];
      } else {
        overridden := overridden + [(prior.source, entry.source)];
      }
      ok := true;
    }

    /** The entry of a path that is being walked; a directory still has to be marked visited. */
    method Record(path: Path) returns (ok: bool)
      requires Valid() && path in tree
      modifies this`entries, this`overridden, this`walked
      ensures ok ==>
                && walked == old(walked) + {path} && old(entries).Keys <= entries.Keys
                && Mapped(tree, rules, entries, walked) && Layered(tree, rules, entries, walked)
                && ((tree[path].Link? ==> rules.allows(tree[path].resolved)) ==> AllArchivable(tree, rules, walked))
      ensures !ok ==>
                || Unarchivable(tree, rules, path)
                || exists p {:trigger Conflict(tree, rules, p, path)} :: p in old(walked) && Conflict(tree, rules, p, path)
    {
      var name := rules.name(path);
      if name.None? || tree[path].Special? {
        return false;
      }
      var entry := Entry(path, KindOf(tree, path));
      ok := MergeEntry(name.value, entry);
      if ok {
        MergedKeepsMapped(tree, rules, old(entries), walked, name.value, entry, entries);
        MergedKeepsLayered(tree, rules, old(entries), walked, name.value, entry, entries);
      } else {
        assert Conflict(tree, rules, old(entries)[name.value].source, path);
      }
      walked := walked + {path};
    }

    /** `_walk`: the path, the tree below it, and every link target met on the way. */
    method Walk(path: Path, ghost open: set<Path>, ghost bound: set<Path>) returns (ok: bool)
      requires Valid() && Closed(open) && path in tree
      requires IsBound(tree, rules, bound) && walked <= bound && path in bound
      modifies this
      ensures ok ==> Valid() && Closed(open) && path in walked && walked <= bound
      ensures !ok ==> WalkObstacle(tree, rules, bound)
      ensures ok ==> old(walked) <= walked && old(entries).Keys <= entries.Keys
      ensures parsed == old(parsed) && old(visited) <= visited
      decreases tree.Keys - visited, if tree[path].Link? then 2 else 1
    {
      if tree[path].Directory? && path !in visited {
        ok := WalkDirectory(path, open, bound);
        return;
      }
      ok := Record(path);
      if !ok || !tree[path].Link? {
        return;
      }
      var resolved := tree[path].resolved;
      if !rules.allows(resolved) {
        assert Unarchivable(tree, rules, path);
        return false;
      }
      if resolved in tree {
        assert resolved in Next(tree, path);
        ok := Walk(resolved, open + {path}, bound);
      }
    }

    method WalkDirectory(path: Path, ghost open: set<Path>, ghost bound: set<Path>) returns (ok: bool)
      requires Valid() && Closed(open) && path in tree && tree[path].Directory? && path !in visited
      requires IsBound(tree, rules, bound) && walked <= bound && path in bound
      modifies this
      ensures ok ==> Valid() && Closed(open) && path in walked && walked <= bound
      ensures !ok ==> WalkObstacle(tree, rules, bound)
      ensures ok ==> old(walked) <= walked && old(entries).Keys <= entries.Keys
      ensures parsed == old(parsed) && old(visited) <= visited
      decreases tree.Keys - visited, 0
    {
      ok := Record(path);
      if !ok {
        return;
      }
      visited := visited + {path};
      var children := tree[path].children;
      for i := 0 to |children|
        invariant Valid() && Closed(open + {path}) && path in visited && old(visited) <= visited
        invariant forall j :: 0 <= j < i ==> path.Child(children[j]) in walked
        invariant walked <= bound && old(walked) <= walked && old(entries).Keys <= entries.Keys
        invariant parsed == old(parsed)
      {
        assert path.Child(children[i]) in Next(tree, path);
        ok := Walk(path.Child(children[i]), open + {path}, bound);
        if !ok {
          return;
        }
      }
    }

    /** `add` for a path that exists; the labels and the list of missing paths are not modelled. */
    method Add(path: Path, ghost bound: set<Path>) returns (ok: bool)
      requires Valid() && Closed({}) && path in tree
      requires IsBound(tree, rules, bound) && walked <= bound && path in bound
      modifies this
      ensures ok ==> Valid() && Closed({}) && path in walked && walked <= bound && (rules.allows(path) || rules.follows)
      ensures !ok ==> (!rules.allows(path) && !rules.follows) || WalkObstacle(tree, rules, bound)
      ensures ok ==> old(walked) <= walked && old(entries).Keys <= entries.Keys
      ensures parsed == old(parsed)
    {
      if !rules.allows(path) && !rules.follows {
        return false;
      }
      ok := Walk(path, {}, bound);
    }

    /** Everything a parsed manifest refers to is part of the bundle. */
    ghost predicate Followed(manifests: set<Path>)
      reads this
    {
      forall m, p {:trigger References(tree, rules, m, p)} :: m in manifests && References(tree, rules, m, p) ==> p in walked
    }

    /** One control manifest: all its values, until one is refused. */
    method Parse(manifest: Path, strict: bool, ghost bound: set<Path>) returns (ok: bool)
      requires Valid() && Closed({}) && IsBound(tree, rules, bound) && walked <= bound
      requires manifest in walked && IsControl(manifest) && tree[manifest].File?
      requires SoundReferences(tree, rules)
      modifies this
      ensures ok ==> Valid() && Closed({}) && walked <= bound
      ensures ok ==> old(walked) <= walked && old(entries).Keys <= entries.Keys
      ensures !ok ==> Obstacle(tree, rules, strict, bound)
      ensures ok ==> Followed({manifest}) && !BadManifest(tree, rules, strict, manifest)
      ensures parsed == old(parsed)
    {
      if tree[manifest].size > MANIFEST_LIMIT || tree[manifest].strings.None? {
        assert BadManifest(tree, rules, strict, manifest);
        return false;
      }
      var left := tree[manifest].strings.value;
      while left != {}
        invariant Valid() && Closed({}) && walked <= bound && parsed == old(parsed)
        invariant old(walked) <= walked && old(entries).Keys <= entries.Keys
        invariant left <= StringsOf(tree, manifest)
        invariant forall value :: value in StringsOf(tree, manifest) && value !in left && rules.reference(value).Some? ==>
                    rules.reference(value).value in walked
        invariant forall value :: value in StringsOf(tree, manifest) && value !in left ==> !rules.refused(value, strict)
        decreases left
      {
        var value :| value in left;
        left := left - {value};
        if rules.refused(value, strict) {
          assert BadManifest(tree, rules, strict, manifest);
          return false;
        }
        var reference := rules.reference(value);
        if reference.Some? {
          assert References(tree, rules, manifest, reference.value);
          var added := Add(reference.value, bound);
          if !added {
            return false;
          }
        }
      }
      ok := true;
    }

    /** The sources of the control manifests in the archive. */
    function Manifests(): set<Path>
      reads this
    {
      set n | n in entries && entries[n].kind == FileKind && IsControl(entries[n].source) :: entries[n].source
    }

    /**
     `add_manifest_closure`: parse control manifests until every one in the
     archive has been parsed.  Nothing is added beyond what any closed set that
     holds the added paths must hold.
     */
    method AddManifestClosure(strict: bool, ghost bound: set<Path>) returns (ok: bool)
      requires Valid() && Closed({}) && Followed(parsed) && AllGood(tree, rules, strict, parsed)
      requires IsBound(tree, rules, bound) && walked <= bound
      requires SoundReferences(tree, rules)
      modifies this
      ensures ok ==> Valid() && Closed({}) && Followed(Manifests()) && AllGood(tree, rules, strict, Manifests())
      ensures !ok ==> Obstacle(tree, rules, strict, bound)
      ensures ok ==> old(walked) <= walked <= bound
    {
      while Manifests() - parsed != {}
        invariant Valid() && Closed({}) && Followed(parsed) && AllGood(tree, rules, strict, parsed)
        invariant old(walked) <= walked <= bound
        decreases tree.Keys - parsed
      {
        var candidates := Manifests() - parsed;
        ghost var before := parsed;
        while candidates != {}
          invariant Valid() && Closed({}) && Followed(parsed) && AllGood(tree, rules, strict, parsed)
          invariant old(walked) <= walked <= bound
          invariant before <= parsed && (candidates == {} ==> before < parsed)
          invariant forall m :: m in candidates ==> m in walked && tree[m].File? && IsControl(m) && m !in before
          decreases candidates
        {
          var manifest :| manifest in candidates;
          candidates := candidates - {manifest};
          parsed := parsed + {manifest};
          ok := Parse(manifest, strict, bound);
          if !ok {
            return;
          }
        }
      }
      forall m | m in Manifests()
        ensures m in parsed
      {
        assert m !in Manifests() - parsed;
      }
      ok := true;
    }
  }

  // ----- The archive -----

  /** The archive has an entry under the guest path of this one. */
  ghost predicate Archived(s: Setup, entries: map<Path, Entry>, p: Path) {
    exists n :: n in entries && GuestPath(s, p, n)
  }

  /** What the archive must hold beside this file, directory or link. */
  ghost predicate HoldsNext(s: Setup, entries: map<Path, Entry>, source: Path)
    requires source in s.tree
  {
    match s.tree[source]
    case Directory(children) => forall c :: c in children ==> Archived(s, entries, Path(source.parts + [c]))
    case Link(resolved) => InAllowedRoot(s, resolved) && (resolved in s.tree ==> Archived(s, entries, resolved))
    case File(_, strings) =>
      IsControl(source) && strings.Some? ==>
        forall value :: value in strings.value && Reference(s, value).Some? ==>
          Archived(s, entries, Reference(s, value).value)
    case Special => false
  }

  predicate InAllowedRoot(s: Setup, p: Path) {
    exists i :: 0 <= i < |s.allowed| && s.allowed[i].parts <= p.parts
  }

  /** The entry is of the kind of its source. */
  predicate SameKind(tree: Tree, e: Entry)
    requires e.source in tree
  {
    match tree[e.source]
    case Directory(_) => e.kind == DirectoryKind
    case File(_, _) => e.kind == FileKind
    case Link(resolved) => e.kind == LinkKind(resolved in tree)
    case Special => false
  }

  /**
   Every entry is filed under its source's guest path, and the archive has an
   entry for every child of an archived directory, every existing target of an
   archived link, which lies in an allowed root, and every reference of an
   archived control manifest.
   */
  ghost predicate ClosedArchive(s: Setup, entries: map<Path, Entry>) {
    forall n {:trigger entries[n]} :: n in entries ==>
      && entries[n].source in s.tree && GuestPath(s, entries[n].source, n)
      && SameKind(s.tree, entries[n]) && HoldsNext(s, entries, entries[n].source)
  }

  lemma WalkedIsArchived(s: Setup, b: BundleBuilder, p: Path)
    requires b.tree == s.tree && b.rules == RulesOf(s) && b.Valid() && p in b.walked
    ensures Archived(s, b.entries, p)
  {
    assert b.rules.name(p) == ArchiveName(s, p);
    GuestPathExactly(s, p, ArchiveName(s, p).value);
  }

  lemma EntryIsClosed(s: Setup, b: BundleBuilder, n: Path)
    requires IsTree(s.tree) && b.tree == s.tree && b.rules == RulesOf(s)
    requires b.Valid() && b.Closed({}) && b.Followed(b.Manifests()) && n in b.entries
    ensures b.entries[n].source in b.walked && GuestPath(s, b.entries[n].source, n) && SameKind(s.tree, b.entries[n])
    ensures HoldsNext(s, b.entries, b.entries[n].source)
  {
    var source := b.entries[n].source;
    assert IsEntry(b.tree, b.rules, n, b.entries[n]);
    assert b.rules.name(source) == ArchiveName(s, source);
    GuestPathExactly(s, source, n);
    match s.tree[source]
    case Directory(children) =>
      forall c | c in children
        ensures Archived(s, b.entries, Path(source.parts + [c]))
      {
        assert source.Child(c) in Next(s.tree, source);
        WalkedIsArchived(s, b, source.Child(c));
      }
    case Link(resolved) =>
      LinkIsKept(s, b, source);
    case File(_, strings) =>
      if IsControl(source) && strings.Some? {
        assert source in b.Manifests();
        ReferencesAreKept(s, b, source);
      }
    case Special =>
  }

  lemma LinkIsKept(s: Setup, b: BundleBuilder, source: Path)
    requires IsTree(s.tree) && b.tree == s.tree && b.rules == RulesOf(s) && b.Valid() && b.Closed({})
    requires source in b.walked && s.tree[source].Link?
    ensures InAllowedRoot(s, s.tree[source].resolved)
    ensures s.tree[source].resolved in s.tree ==> Archived(s, b.entries, s.tree[source].resolved)
  {
    var resolved := s.tree[source].resolved;
    assert !Unarchivable(b.tree, b.rules, source);
    assert b.rules.allows(resolved) == Allowed(s, resolved);
    var i :| 0 <= i < |s.allowed| && Real(s.tree, resolved).Within(s.allowed[i]);
    if resolved in s.tree {
      assert resolved in Next(s.tree, source);
      WalkedIsArchived(s, b, resolved);
    }
  }

  lemma ReferencesAreKept(s: Setup, b: BundleBuilder, m: Path)
    requires b.tree == s.tree && b.rules == RulesOf(s) && b.Valid() && b.Followed({m})
    ensures forall value :: value in StringsOf(s.tree, m) && Reference(s, value).Some? ==>
              Archived(s, b.entries, Reference(s, value).value)
  {
    forall value | value in StringsOf(s.tree, m) && Reference(s, value).Some?
      ensures Archived(s, b.entries, Reference(s, value).value)
    {
      assert b.rules.reference(value) == Reference(s, value);
      assert References(s.tree, b.rules, m, Reference(s, value).value);
      WalkedIsArchived(s, b, Reference(s, value).value);
    }
  }

  /** Every configuration refers only to allowed paths that exist. */
  lemma ReferencesExist(s: Setup)
    ensures SoundReferences(s.tree, RulesOf(s))
  {
    var rules := RulesOf(s);
    forall value | rules.reference(value).Some?
      ensures rules.reference(value).value in s.tree && rules.allows(rules.reference(value).value)
    {
      assert rules.reference(value) == Reference(s, value);
    }
  }

  /** No two paths of the set have one guest path, so nothing overrides anything. */
  ghost predicate OneSource(rules: Rules, walked: set<Path>) {
    forall p, q {:trigger rules.name(p), rules.name(q)} ::
      p in walked && q in walked && rules.name(p).Some? && rules.name(p) == rules.name(q) ==> p == q
  }

  /** What nothing walked overrides is in the archive. */
  lemma LiveIsArchived(b: BundleBuilder, m: Path)
    requires b.Valid() && m in b.walked && Plain(b.tree, b.rules, b.walked, m) && Lowest(b.rules, b.walked, m)
    ensures b.rules.name(m).Some? && b.rules.name(m).value in b.entries
    ensures b.entries[b.rules.name(m).value].source == m
  {
    var e := b.entries[b.rules.name(m).value];
    assert IsEntry(b.tree, b.rules, b.rules.name(m).value, e);
    assert Kin(b.rules, m, e.source);
  }

  lemma LiveManifestIsParsed(b: BundleBuilder, m: Path)
    requires b.Valid() && m in b.walked && Live(b.tree, b.rules, b.walked, m)
    requires b.tree[m].File? && IsControl(m)
    ensures m in b.Manifests()
  {
    LiveIsArchived(b, m);
    var n := b.rules.name(m).value;
    assert IsEntry(b.tree, b.rules, n, b.entries[n]);
  }

  lemma LowestConflict(b: BundleBuilder, p: Path, q: Path)
    requires b.Valid() && p in b.walked && q in b.walked && Conflict(b.tree, b.rules, p, q)
    requires Plain(b.tree, b.rules, b.walked, p)
    ensures !Lowest(b.rules, b.walked, p)
  {
    if Lowest(b.rules, b.walked, p) {
      assert Plain(b.tree, b.rules, b.walked, q) by {
        assert forall r :: Kin(b.rules, q, r) == Kin(b.rules, p, r);
      }
      assert Lowest(b.rules, b.walked, q) by {
        assert forall r :: Kin(b.rules, q, r) == Kin(b.rules, p, r);
      }
      LiveIsArchived(b, p);
      LiveIsArchived(b, q);
    }
  }

  /** A finished builder has walked a set that is closed, and free of obstacles, but for what was overridden. */
  lemma FinishedIsClean(b: BundleBuilder, strict: bool)
    requires b.Valid() && b.Closed({}) && b.Followed(b.Manifests())
    requires AllGood(b.tree, b.rules, strict, b.Manifests())
    ensures IsLiveBound(b.tree, b.rules, b.walked) && !LiveObstacle(b.tree, b.rules, strict, b.walked)
  {
    forall m | m in b.walked && b.tree[m].File? && IsControl(m) && Live(b.tree, b.rules, b.walked, m)
      ensures m in b.Manifests()
    {
      LiveManifestIsParsed(b, m);
    }
    forall p, q | p in b.walked && q in b.walked && Conflict(b.tree, b.rules, p, q) && Plain(b.tree, b.rules, b.walked, p)
      ensures !Lowest(b.rules, b.walked, p)
    {
      LowestConflict(b, p, q);
    }
  }

  /** Without overrides nothing is discounted. */
  lemma WithoutOverrides(tree: Tree, rules: Rules, strict: bool, walked: set<Path>)
    requires walked <= tree.Keys && OneSource(rules, walked)
    requires IsLiveBound(tree, rules, walked) && !LiveObstacle(tree, rules, strict, walked)
    ensures IsBound(tree, rules, walked) && !Obstacle(tree, rules, strict, walked)
  {
    forall m | m in walked
      ensures Live(tree, rules, walked, m) && Lowest(rules, walked, m)
    {
    }
  }

  /** The selected paths that exist. */
  ghost predicate Selects(tree: Tree, selected: seq<Path>, walked: set<Path>) {
    forall i {:trigger selected[i]} :: 0 <= i < |selected| && selected[i] in tree ==> selected[i] in walked
  }

  /** It exists only inside the allowed roots, as far as links are concerned, unless that does not matter. */
  predicate Selectable(s: Setup, p: Path) {
    p in s.tree ==>
      s.followExternal || InAllowedRoot(s, if s.tree[p].Link? then s.tree[p].resolved else p)
  }

  lemma AllowedExactly(s: Setup, p: Path)
    ensures Allowed(s, p) <==> InAllowedRoot(s, if p in s.tree && s.tree[p].Link? then s.tree[p].resolved else p)
  {
  }

  /**
   Selecting paths and following their closure ends; a finished archive is
   closed, holds what was selected, and holds nothing that some closed set of
   paths with the selected ones does not hold.  It is finished unless such a set
   holds something the builder must refuse.  Conversely, when it is finished,
   the walked paths are closed and without obstacles but for what other walked
   paths override, and of different files with one guest path the archive has the
   one of the lowest root.
   */
  method Build(s: Setup, selected: seq<Path>, strict: bool, ghost bound: set<Path>)
    returns (ok: bool, entries: map<Path, Entry>, ghost walked: set<Path>)
    requires IsTree(s.tree)
    requires IsBound(s.tree, RulesOf(s), bound) && Selects(s.tree, selected, bound)
    ensures ok ==> ClosedArchive(s, entries)
    ensures !ok ==>
              || Obstacle(s.tree, RulesOf(s), strict, bound)
              || exists i :: 0 <= i < |selected| && !Selectable(s, selected[i])
    ensures ok ==> forall i :: 0 <= i < |selected| ==> Selectable(s, selected[i])
    ensures ok ==> forall i :: 0 <= i < |selected| && selected[i] in s.tree ==> Archived(s, entries, selected[i])
    ensures ok ==> forall n :: n in entries ==> entries[n].source in walked
    ensures ok ==> Selects(s.tree, selected, walked) && walked <= bound && ClosedBut(s.tree, walked, {})
    ensures ok ==> AllArchivable(s.tree, RulesOf(s), walked)
    ensures ok ==> forall n :: n in entries ==> !BadManifest(s.tree, RulesOf(s), strict, entries[n].source)
    ensures ok ==> Layered(s.tree, RulesOf(s), entries, walked)
    ensures ok ==> IsLiveBound(s.tree, RulesOf(s), walked) && !LiveObstacle(s.tree, RulesOf(s), strict, walked)
  {
    var b := new BundleBuilder(s.tree, RulesOf(s));
    ReferencesExist(s);
    entries, walked := map[], {};
    for i := 0 to |selected|
      invariant b.Valid() && b.Closed({}) && b.parsed == {} && b.walked <= bound
      invariant forall j :: 0 <= j < i && selected[j] in s.tree ==> selected[j] in b.walked
      invariant forall j :: 0 <= j < i ==> Selectable(s, selected[j])
    {
      if selected[i] in s.tree {
        assert b.rules.allows(selected[i]) == Allowed(s, selected[i]);
        AllowedExactly(s, selected[i]);
        ok := b.Add(selected[i], bound);
        if !ok {
          return;
        }
      }
    }
    ok := b.AddManifestClosure(strict, bound);
    if !ok {
      return;
    }
    entries, walked := b.entries, b.walked;
    forall p | p in b.walked
      ensures Archived(s, entries, p)
    {
      WalkedIsArchived(s, b, p);
    }
    forall n | n in entries
      ensures entries[n].source in b.walked && GuestPath(s, entries[n].source, n)
      ensures SameKind(s.tree, entries[n]) && HoldsNext(s, entries, entries[n].source)
      ensures !BadManifest(s.tree, RulesOf(s), strict, entries[n].source)
    {
      EntryIsClosed(s, b, n);
      EntryIsGood(s, b, strict, n);
    }
    FinishedIsClean(b, strict);
  }

  lemma EntryIsGood(s: Setup, b: BundleBuilder, strict: bool, n: Path)
    requires b.tree == s.tree && b.rules == RulesOf(s) && b.Valid()
    requires AllGood(b.tree, b.rules, strict, b.Manifests()) && n in b.entries
    ensures !BadManifest(s.tree, RulesOf(s), strict, b.entries[n].source)
  {
    var source := b.entries[n].source;
    assert IsEntry(b.tree, b.rules, n, b.entries[n]);
    if b.tree[source].File? && IsControl(source) {
      assert source in b.Manifests();
    }
  }
}
