/** Which path a value in a control manifest makes part of the bundle. */
module BundleReference {
  import opened BundleClosure
  import opened PosixPath
  import opened Wrappers

  /** Components that a spelled path can have. */
  predicate Plain(parts: seq<string>) {
    parts != [] && forall p :: p in parts ==> p !in {"", ".", ".."} && '/' !in p && '\0' !in p
  }

  function Spelled(parts: seq<string>): string
    requires parts != []
  {
    "/" + Joined(parts)
  }

  predicate NormalRoots(s: Setup) {
    forall i :: 0 <= i < |s.roots| ==> ".." !in s.roots[i].path.parts
  }

  lemma {:induction false} JoinedHasNoNul(parts: seq<string>)
    requires Plain(parts)
    ensures '\0' !in Joined(parts) && Joined(parts) != "" && Joined(parts)[0] != '/'
  {
    assert parts[0] != "" && parts[0][0] in parts[0];
    if |parts| > 1 {
      assert Plain(parts[1..]) by {
        assert forall p :: p in parts[1..] ==> p in parts;
      }
      JoinedHasNoNul(parts[1..]);
    }
  }

  lemma SpelledIsRead(parts: seq<string>)
    requires Plain(parts)
    ensures Usable(Spelled(parts)) && Components(Spelled(parts)) == parts && Collapse(parts) == parts
  {
    JoinedHasNoNul(parts);
    SplitConcat("", Joined(parts));
    assert "" + "/" + Joined(parts) == Spelled(parts);
    SplitsJoined(parts);
    PartsConcat([""], parts);
    KeepsParts(parts);
    CollapseKeeps(parts);
  }

  /** The path below root i that stands for this guest path, if the root stands for the guest root and has it. */
  predicate FoundIn(s: Setup, rest: seq<string>, i: nat) {
    i < |s.roots| && s.roots[i].guest == s.guest && Path(s.roots[i].path.parts + rest) in s.tree
  }

  lemma FoundExactly(s: Setup, rest: seq<string>, i: nat)
    requires i < |s.roots| && NormalRoots(s) && ".." !in rest
    ensures InRoots(s, rest, i)
         == if FoundIn(s, rest, i) then Some(Path(s.roots[i].path.parts + rest)) else InRoots(s, rest, i + 1)
  {
    CollapseKeeps(s.roots[i].path.parts + rest);
  }

  /** The search ends at the first root that has the path, or with none. */
  lemma {:induction false} FirstFound(s: Setup, rest: seq<string>, i: nat) returns (j: nat)
    requires i <= |s.roots| && NormalRoots(s) && ".." !in rest
    ensures i <= j <= |s.roots| && forall k :: i <= k < j ==> !FoundIn(s, rest, k)
    ensures j < |s.roots| ==> FoundIn(s, rest, j) && InRoots(s, rest, i) == Some(Path(s.roots[j].path.parts + rest))
    ensures j == |s.roots| ==> InRoots(s, rest, i) == None
    decreases |s.roots| - i
  {
    j := i;
    if i < |s.roots| {
      FoundExactly(s, rest, i);
      if !FoundIn(s, rest, i) {
        j := FirstFound(s, rest, i + 1);
      }
    }
  }

  /** Root j is the first that has the path for this rest of a guest path. */
  predicate FirstAt(s: Setup, rest: seq<string>, j: nat) {
    FoundIn(s, rest, j) && forall k :: 0 <= k < j ==> !FoundIn(s, rest, k)
  }

  /** The path itself, or else the one that stands for it in the first root that has it. */
  ghost predicate Means(s: Setup, parts: seq<string>, p: Path) {
    if Path(parts) in s.tree then p == Path(parts)
    else
      && s.guest.parts <= parts
      && var rest := parts[|s.guest.parts|..];
         exists j: nat :: FirstAt(s, rest, j) && p == Path(s.roots[j].path.parts + rest)
  }

  lemma StandsExactly(s: Setup, rest: seq<string>, p: Path)
    requires NormalRoots(s) && ".." !in rest
    ensures InRoots(s, rest, 0) == Some(p)
       <==> exists j: nat :: FirstAt(s, rest, j) && p == Path(s.roots[j].path.parts + rest)
  {
    var j := FirstFound(s, rest, 0);
    if j < |s.roots| {
      assert FirstAt(s, rest, j);
      forall k: nat | FirstAt(s, rest, k)
        ensures k == j
      {
        assert k < j ==> !FoundIn(s, rest, k);
      }
    }
  }

  lemma ResolvesExactly(s: Setup, parts: seq<string>, p: Path)
    requires Plain(parts) && NormalRoots(s)
    ensures ResolveReference(s, Spelled(parts)) == Some(p) <==> Means(s, parts, p)
  {
    SpelledIsRead(parts);
    ResolvesRead(s, Spelled(parts), parts, p);
  }

  lemma ResolvesRead(s: Setup, value: string, parts: seq<string>, p: Path)
    requires Usable(value) && Components(value) == parts && Collapse(parts) == parts && NormalRoots(s)
    ensures ResolveReference(s, value) == Some(p) <==> Means(s, parts, p)
  {
    if Path(parts) !in s.tree && s.guest.parts <= parts {
      var rest := parts[|s.guest.parts|..];
      assert forall c :: c in rest ==> c in parts;
      StandsExactly(s, rest, p);
    }
  }

  // ----- Which of them are followed -----

  /** Trees of the guest root that are not part of the runtime. */
  predicate Transient(rest: seq<string>)
    requires rest != []
  {
    rest[0] in {"artifacts", "cache", "logs", "tmp", "runs", "downloads"} || ["env", "product-state"] <= rest
  }

  predicate IsBuild(part: string) {
    "product-v1-" <= part || "rocm-pytorch-" <= part || "gfx950-" <= part || "hip-facade-stage" <= part
  }

  /** Directories that are dependencies as a whole. */
  predicate WholePrefix(rest: seq<string>)
    requires rest != []
  {
    || rest[0] == "models"
    || (rest[0] == "env" && exists part :: part in rest && IsBuild(part))
  }

  /** The path is a directory, or a link to one. */
  predicate LeadsToDirectory(tree: Tree, p: Path) {
    p in tree &&
    match tree[p]
    case Directory(_) => true
    case Link(resolved) => resolved in tree && tree[resolved].Directory?
    case _ => false
  }

  /** It lies in an allowed root, has a guest path below the guest root, and is runtime there. */
  ghost predicate IsRuntime(s: Setup, p: Path) {
    && InAllowedRoot(s, if p in s.tree && s.tree[p].Link? then s.tree[p].resolved else p)
    && exists rest ::
         && rest != [] && GuestPath(s, p, Path(s.guest.parts + rest)) && !Transient(rest)
         && (LeadsToDirectory(s.tree, p) ==> WholePrefix(rest))
  }

  lemma RelativeExactly(s: Setup, p: Path, rest: seq<string>)
    ensures GuestRelative(s, p) == Some(rest) <==> GuestPath(s, p, Path(s.guest.parts + rest))
  {
    var n := Path(s.guest.parts + rest);
    GuestPathExactly(s, p, n);
    if GuestRelative(s, p) == Some(rest) {
      assert ArchiveName(s, p).value == n;
    }
    if ArchiveName(s, p) == Some(n) {
      assert n.parts[|s.guest.parts|..] == rest;
    }
  }

  lemma BuildsExactly(rest: seq<string>)
    requires rest != []
    ensures WholePrefix(rest)
       <==> || rest[0] == "models"
            || (rest[0] == "env" && exists i :: 0 <= i < |rest| && RuntimePart(rest[i]))
  {
    if exists i :: 0 <= i < |rest| && RuntimePart(rest[i]) {
      var i :| 0 <= i < |rest| && RuntimePart(rest[i]);
      assert rest[i] in rest && IsBuild(rest[i]);
    }
    if exists part :: part in rest && IsBuild(part) {
      var part :| part in rest && IsBuild(part);
      var i :| 0 <= i < |rest| && rest[i] == part;
      assert RuntimePart(rest[i]);
    }
  }

  lemma RuntimeExactly(s: Setup, p: Path)
    requires p in s.tree
    ensures IsRuntime(s, p)
       <==> Allowed(s, p) && !Skipped(s, p) && (IsDirectory(s.tree, p) ==> RuntimeDirectory(s, p))
  {
    AllowedExactly(s, p);
    assert LeadsToDirectory(s.tree, p) == IsDirectory(s.tree, p);
    if GuestRelative(s, p).Some? {
      var rest := GuestRelative(s, p).value;
      RelativeExactly(s, p, rest);
      if rest != [] {
        BuildsExactly(rest);
      }
    }
    if IsRuntime(s, p) {
      var rest :| rest != [] && GuestPath(s, p, Path(s.guest.parts + rest)) && !Transient(rest)
                  && (LeadsToDirectory(s.tree, p) ==> WholePrefix(rest));
      RelativeExactly(s, p, rest);
    }
  }

  /**
   A plainly spelled value is followed exactly to the path it names, itself or
   below the first root that stands for the guest root, provided that this path is
   allowed and part of the runtime.
   */
  lemma ReferenceExactly(s: Setup, parts: seq<string>, p: Path)
    requires Plain(parts) && NormalRoots(s)
    ensures Reference(s, Spelled(parts)) == Some(p) <==> Means(s, parts, p) && IsRuntime(s, p)
  {
    ResolvesExactly(s, parts, p);
    var found := ResolveReference(s, Spelled(parts));
    if found.Some? {
      ResolvesExactly(s, parts, found.value);
      RuntimeExactly(s, found.value);
    }
  }

  /** Relative values and values with a NUL name nothing, and the former are never refused. */
  lemma OtherValuesAreIgnored(s: Setup, value: string, strict: bool)
    ensures value == "" || value[0] != '/' ==> Reference(s, value) == None && !Refused(s, value, strict)
    ensures '\0' in value ==> Reference(s, value) == None
  {
  }

  lemma SlashBefore(text: string)
    ensures Split("/" + text) == [""] + Split(text)
  {
    SplitConcat("", text);
    assert "" + "/" + text == "/" + text;
    assert Split("") == [""];
  }

  /** The components behind two slashes are those of the plain value. */
  lemma BehindTwoSlashes(parts: seq<string>, value: string)
    requires Plain(parts) && value == "/" + Spelled(parts)
    ensures TwoSlashes(value) && '\0' !in value && Collapse(Components(value)) == parts
  {
    JoinedHasNoNul(parts);
    SlashBefore(Spelled(parts));
    SlashBefore(Joined(parts));
    SplitsJoined(parts);
    PartsConcat([""], Split(Spelled(parts)));
    PartsConcat([""], parts);
    KeepsParts(parts);
    CollapseKeeps(parts);
  }

  lemma SpelledTwice(s: Setup, parts: seq<string>, value: string, strict: bool)
    requires TwoSlashes(value) && '\0' !in value && Collapse(Components(value)) == parts
    requires Path(parts) in s.tree && Allowed(s, Path(parts))
    ensures Reference(s, value) == None && Refused(s, value, strict)
  {
    assert NamelessReference(s, value);
    assert !Usable(value);
  }

  /** A value below the two-slash root is never followed; it stops the builder where the plain value would be followed. */
  lemma TwoSlashesAreRefused(s: Setup, parts: seq<string>, strict: bool)
    requires Plain(parts) && Path(parts) in s.tree
    requires InAllowedRoot(s, if s.tree[Path(parts)].Link? then s.tree[Path(parts)].resolved else Path(parts))
    ensures Reference(s, "/" + Spelled(parts)) == None && Refused(s, "/" + Spelled(parts), strict)
  {
    BehindTwoSlashes(parts, "/" + Spelled(parts));
    AllowedExactly(s, Path(parts));
    SpelledTwice(s, parts, "/" + Spelled(parts), strict);
  }

  // ----- Which of them are refused -----

  /** A dependency on the excluded worktree is refused, wherever the value mentions it. */
  lemma FastcopyIsRefused(s: Setup, before: string, after: string, strict: bool)
    requires before != "" && before[0] == '/'
    ensures Refused(s, before + "amdgpu-sim-fastcopy" + after, strict)
  {
    var value := before + "amdgpu-sim-fastcopy" + after;
    assert value[|before|..] == "amdgpu-sim-fastcopy" + after;
  }

  /** Otherwise a plainly spelled value is refused for a missing runtime path, or one without a guest path. */
  lemma RefusedExactly(s: Setup, parts: seq<string>, strict: bool)
    requires Plain(parts) && NormalRoots(s) && !Mentions(Spelled(parts), "amdgpu-sim-fastcopy")
    ensures Refused(s, Spelled(parts), strict) <==>
              || (strict && s.envPrefix <= Spelled(parts) && forall p :: !Means(s, parts, p))
              || exists p :: Means(s, parts, p) && Allowed(s, p) && forall n :: !GuestPath(s, p, n)
  {
    SpelledIsRead(parts);
    var found := ResolveReference(s, Spelled(parts));
    forall p
      ensures found == Some(p) <==> Means(s, parts, p)
    {
      ResolvesExactly(s, parts, p);
    }
    if found.Some? {
      forall n
        ensures ArchiveName(s, found.value) == Some(n) <==> GuestPath(s, found.value, n)
      {
        GuestPathExactly(s, found.value, n);
      }
    }
  }

  /** The names of control manifests. */
  lemma ControlExactly(p: Path, name: string, stem: string)
    ensures IsControl(Path(p.parts + ["manifest.json"]))
    ensures IsControl(Path(p.parts + [stem + ".manifest.json"]))
    ensures IsControl(Path(p.parts + ["active-product"])) && IsControl(Path(p.parts + ["active-rocm-pytorch"]))
    ensures IsControl(Path(p.parts + [name])) ==>
              || name in {"manifest.json", "active-product", "active-rocm-pytorch"}
              || exists stem :: name == stem + ".manifest.json"
  {
    var suffix := ".manifest.json";
    assert (stem + suffix)[|stem + suffix| - |suffix|..] == suffix;
    if EndsWith(name, suffix) {
      assert name == name[..|name| - |suffix|] + suffix;
    }
  }
}
