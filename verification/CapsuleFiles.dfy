/** The staged directory of a capsule and its artifact table. */
module CapsuleFiles {
  import opened AqlPacket
  import opened Bytes
  import opened CapsuleDocument
  import opened Wrappers

  datatype Entry = Entry(path: Path, content: Content)

  ghost predicate Distinct(entries: seq<Entry>) {
    forall i, j :: 0 <= i < j < |entries| ==> entries[i].path != entries[j].path
  }

  predicate Absent(entries: seq<Entry>, path: Path) {
    forall i :: 0 <= i < |entries| ==> entries[i].path != path
  }

  function ArtifactOf(e: Entry, render: Render): Artifact {
    Artifact(e.path, |render(e.content)|, Sha256(render(e.content)))
  }

  function ArtifactsOf(entries: seq<Entry>, render: Render): (s: seq<Artifact>)
    ensures |s| == |entries| && forall i :: 0 <= i < |s| ==> s[i] == ArtifactOf(entries[i], render)
  {
    seq(|entries|, i requires 0 <= i < |entries| => ArtifactOf(entries[i], render))
  }

  function FilesOf(entries: seq<Entry>): (files: map<Path, Content>)
    ensures forall p :: p in files <==> !Absent(entries, p)
  {
    if entries == [] then map[]
    else
      var last := entries[|entries| - 1];
      var before := FilesOf(entries[..|entries| - 1]);
      before[last.path := last.content]
  }

  lemma {:induction false} FileAt(entries: seq<Entry>, i: nat)
    requires Distinct(entries) && i < |entries|
    ensures entries[i].path in FilesOf(entries) && FilesOf(entries)[entries[i].path] == entries[i].content
  {
    var n := |entries| - 1;
    if i < n {
      FileAt(entries[..n], i);
    }
  }

  lemma FileOfEntry(entries: seq<Entry>, e: Entry)
    requires Distinct(entries) && e in entries
    ensures e.path in FilesOf(entries) && FilesOf(entries)[e.path] == e.content
  {
    var i :| 0 <= i < |entries| && entries[i] == e;
    FileAt(entries, i);
  }

  /** The table of a directory without repeated names lists its files exactly. */
  lemma TableIsSound(entries: seq<Entry>, render: Render)
    requires Distinct(entries) && entries != []
    ensures TableSound(ArtifactsOf(entries, render), FilesOf(entries), render)
  {
    var artifacts, files := ArtifactsOf(entries, render), FilesOf(entries);
    forall i | 0 <= i < |artifacts|
      ensures artifacts[i].path in files
      ensures artifacts[i].size == |render(files[artifacts[i].path])|
      ensures artifacts[i].digest == Sha256(render(files[artifacts[i].path]))
    {
      FileAt(entries, i);
    }
    forall p | p in files
      ensures exists i :: 0 <= i < |artifacts| && artifacts[i].path == p
    {
      var i :| 0 <= i < |entries| && entries[i].path == p;
      assert artifacts[i].path == p;
    }
  }

  // ----- Log bytes -----

  function LogSize(entries: seq<Entry>, render: Render): nat {
    if entries == [] then 0
    else
      LogSize(entries[..|entries| - 1], render)
      + if IsLog(entries[|entries| - 1].path) then |render(entries[|entries| - 1].content)| else 0
  }

  lemma {:induction false} LogBytesOfTable(entries: seq<Entry>, render: Render)
    ensures LogBytes(ArtifactsOf(entries, render)) == LogSize(entries, render)
  {
    if entries != [] {
      var init := entries[..|entries| - 1];
      LogBytesOfTable(init, render);
      assert ArtifactsOf(entries, render)[..|init|] == ArtifactsOf(init, render);
    }
  }

  lemma {:induction false} LogSizeOfMore(a: seq<Entry>, b: seq<Entry>, render: Render)
    ensures LogSize(a + b, render) == LogSize(a, render) + LogSize(b, render)
  {
    if b == [] {
      assert a + b == a;
    } else {
      var init := b[..|b| - 1];
      LogSizeOfMore(a, init, render);
      assert (a + b)[..|a + b| - 1] == a + init;
    }
  }

  lemma {:induction false} NoLogSize(entries: seq<Entry>, render: Render)
    requires forall i :: 0 <= i < |entries| ==> !IsLog(entries[i].path)
    ensures LogSize(entries, render) == 0
  {
    if entries != [] {
      NoLogSize(entries[..|entries| - 1], render);
    }
  }

  // ----- The directory as it is filled -----

  class CapsuleDirectory {
    var entries: seq<Entry>

    ghost predicate Valid()
      reads this
    {
      Distinct(entries)
    }

    constructor ()
      ensures Valid() && entries == []
    {
      entries := [];
    }

    /** `add_bytes` and `add_json`: the file must not exist yet. */
    method Add(path: Path, content: Content)
      requires Valid() && Absent(entries, path)
      modifies this
      ensures Valid() && entries == old(entries) + [Entry(path, content)]
    {
      entries := entries + [Entry(path, content)];
    }
  }
}
