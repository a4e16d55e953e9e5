/** What stops the bundle builder, told from the roots and the tree. */
module BundleObstacles {
  import opened BundleClosure
  import opened Wrappers

  /** The path, or what it leads to. */
  function FileAt(tree: Tree, p: Path): Path {
    if p in tree && tree[p].Link? then tree[p].resolved else p
  }

  /** It has no guest path, is neither file, directory nor link, or is a link out of the allowed roots. */
  ghost predicate CannotBeArchived(s: Setup, p: Path) {
    && p in s.tree
    && match s.tree[p]
       case Special => true
       case Link(resolved) => (forall n :: !GuestPath(s, p, n)) || !InAllowedRoot(s, FileAt(s.tree, resolved))
       case _ => forall n :: !GuestPath(s, p, n)
  }

  lemma UnarchivableExactly(s: Setup, p: Path)
    ensures Unarchivable(s.tree, RulesOf(s), p) <==> CannotBeArchived(s, p)
  {
    NamelessExactly(s, p);
    if p in s.tree && s.tree[p].Link? {
      AllowedExactly(s, s.tree[p].resolved);
    }
  }

  lemma NamelessExactly(s: Setup, p: Path)
    ensures RulesOf(s).name(p).None? <==> forall n :: !GuestPath(s, p, n)
  {
    forall n
      ensures ArchiveName(s, p) == Some(n) <==> GuestPath(s, p, n)
    {
      GuestPathExactly(s, p, n);
    }
  }

  /** Two files, reached below one root, have one guest path. */
  ghost predicate Collides(s: Setup, p: Path, q: Path) {
    && (exists n :: GuestPath(s, p, n) && GuestPath(s, q, n))
    && (exists i :: FirstRoot(s, p, i) && FirstRoot(s, q, i))
    && p in s.tree && q in s.tree && FileAt(s.tree, p) != FileAt(s.tree, q)
  }

  lemma ConflictExactly(s: Setup, p: Path, q: Path)
    ensures Conflict(s.tree, RulesOf(s), p, q) <==> Collides(s, p, q)
  {
    forall n
      ensures ArchiveName(s, p) == Some(n) <==> GuestPath(s, p, n)
      ensures ArchiveName(s, q) == Some(n) <==> GuestPath(s, q, n)
    {
      GuestPathExactly(s, p, n);
      GuestPathExactly(s, q, n);
    }
    RankExactly(s, p, RankOf(s, p));
    RankExactly(s, q, RankOf(s, q));
    forall i: nat | FirstRoot(s, p, i) && FirstRoot(s, q, i)
      ensures RankOf(s, p) == RankOf(s, q) == i
    {
      RankExactly(s, p, i);
      RankExactly(s, q, i);
    }
  }

  /** A control manifest that is too long, cannot be read, or has a value that is refused. */
  predicate CannotBeFollowed(s: Setup, strict: bool, m: Path) {
    && m in s.tree && IsControl(m)
    && match s.tree[m]
       case File(size, None) => true
       case File(size, Some(strings)) => size > 0x400_0000 || exists value :: value in strings && Refused(s, value, strict)
       case _ => false
  }

  lemma BadManifestExactly(s: Setup, strict: bool, m: Path)
    ensures BadManifest(s.tree, RulesOf(s), strict, m) <==> CannotBeFollowed(s, strict, m)
  {
    forall value
      ensures RulesOf(s).refused(value, strict) == Refused(s, value, strict)
    {
    }
    if m in s.tree && s.tree[m].File? && s.tree[m].strings.Some? {
      assert StringsOf(s.tree, m) == s.tree[m].strings.value;
    }
  }
}
