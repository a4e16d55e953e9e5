/** The loops of `verify` over the registry file, proved against what they check. */
module CapsuleVerify {
  import opened AqlPacket
  import opened Bytes
  import opened CapsuleDocument
  import opened KmtRegistry
  import opened Wrappers

  /** The observed allocations: no identity twice, no empty one. */
  method CheckObserved(observed: seq<Identity>) returns (ok: bool)
    ensures ok <==> DistinctKeys(observed) && forall i :: 0 <= i < |observed| ==> observed[i].bytes > 0
  {
    var seen: set<Key> := {};
    for n := 0 to |observed|
      invariant forall k :: k in seen <==> exists i :: 0 <= i < n && observed[i].key == k
      invariant forall i, j :: 0 <= i < j < n ==> observed[i].key != observed[j].key
      invariant forall i :: 0 <= i < n ==> observed[i].bytes > 0
    {
      if observed[n].key in seen || observed[n].bytes == 0 {
        return false;
      }
      seen := seen + {observed[n].key};
    }
    ok := true;
  }

  /** A referenced allocation was observed and hashed whole. */
  predicate Backed(r: Referenced, observed: seq<Identity>) {
    r.identity in observed && r.hashedVa == r.identity.va && r.hashedBytes == r.identity.bytes
  }

  /** The first n referenced allocations are backed. */
  predicate FirstBacked(referenced: seq<Referenced>, observed: seq<Identity>, n: nat)
    requires n <= |referenced|
  {
    forall i {:trigger referenced[i]} :: 0 <= i < n ==> Backed(referenced[i], observed)
  }

  lemma FirstBackedStep(referenced: seq<Referenced>, observed: seq<Identity>, n: nat)
    requires n < |referenced| && FirstBacked(referenced, observed, n)
    ensures FirstBacked(referenced, observed, n + 1) <==> Backed(referenced[n], observed)
    ensures !Backed(referenced[n], observed) ==> !FirstBacked(referenced, observed, |referenced|)
  {
  }

  /** What the loop over the referenced allocations has gathered after n of them. */
  ghost predicate Tallied(referenced: seq<Referenced>, n: nat, total: nat, roles: set<Role>, residents: seq<nat>)
    requires n <= |referenced|
  {
    && total == Total(referenced[..n])
    && (forall role :: role in roles <==> exists i :: 0 <= i < n && role in referenced[i].roles)
    && (forall c :: 0 <= c < |residents| ==> residents[c] < n && ResidentCode in referenced[residents[c]].roles)
    && (forall c, d :: 0 <= c < d < |residents| ==> residents[c] < residents[d])
    && (forall i :: 0 <= i < n && ResidentCode in referenced[i].roles ==> i in residents)
  }

  lemma TalliedStep(referenced: seq<Referenced>, n: nat, total: nat, roles: set<Role>, residents: seq<nat>)
    requires n < |referenced| && Tallied(referenced, n, total, roles, residents)
    ensures Tallied(referenced, n + 1, total + referenced[n].identity.bytes, roles + referenced[n].roles,
                    if ResidentCode in referenced[n].roles then residents + [n] else residents)
  {
    assert referenced[..n + 1][..n] == referenced[..n];
    var longer := if ResidentCode in referenced[n].roles then residents + [n] else residents;
    forall i | 0 <= i < n + 1 && ResidentCode in referenced[i].roles
      ensures i in longer
    {
      if i < n {
        assert i in residents;
      } else {
        assert longer[|residents|] == n;
      }
    }
  }

  /** The loop over the referenced allocations: byte total, roles and resident code. */
  method CheckReferenced(referenced: seq<Referenced>, observed: seq<Identity>)
    returns (ok: bool, total: nat, roles: set<Role>, residents: seq<nat>)
    ensures ok <==> FirstBacked(referenced, observed, |referenced|)
    ensures ok ==> Tallied(referenced, |referenced|, total, roles, residents)
  {
    total, roles, residents := 0, {}, [];
    for n := 0 to |referenced|
      invariant FirstBacked(referenced, observed, n)
      invariant Tallied(referenced, n, total, roles, residents)
    {
      var r := referenced[n];
      FirstBackedStep(referenced, observed, n);
      if !Backed(r, observed) {
        return false, total, roles, residents;
      }
      TalliedStep(referenced, n, total, roles, residents);
      total, roles := total + r.identity.bytes, roles + r.roles;
      if ResidentCode in r.roles {
        residents := residents + [n];
      }
    }
    ok := true;
  }

  lemma OneResident(referenced: seq<Referenced>, total: nat, roles: set<Role>, residents: seq<nat>, code: nat)
    requires Tallied(referenced, |referenced|, total, roles, residents) && code < |referenced|
    ensures (forall i :: 0 <= i < |referenced| ==> (ResidentCode in referenced[i].roles <==> i == code))
       <==> residents == [code]
  {
    assert |residents| > 1 ==> residents[0] < residents[1];
    if forall i :: 0 <= i < |referenced| ==> (ResidentCode in referenced[i].roles <==> i == code) {
      assert code in residents;
      forall c | 0 <= c < |residents|
        ensures residents[c] == code
      {
        assert ResidentCode in referenced[residents[c]].roles;
      }
    }
    if residents == [code] {
      assert residents[0] == code;
      forall i | 0 <= i < |referenced| && ResidentCode in referenced[i].roles
        ensures i == code
      {
        assert i in residents;
      }
    }
  }

  /** Only the resident code claims a copy, and it is the one in the capsule. */
  predicate CopiesClaimed(referenced: seq<Referenced>, code: nat) {
    forall i :: 0 <= i < |referenced| ==>
      && referenced[i].copied == (i == code)
      && referenced[i].copy == if i == code then Some(CodeBin) else None
  }

  /** All checks on the registry file: it accepts exactly when the snapshot is sound. */
  method CheckSnapshot(g: RegistrySnapshot, m: Manifest, copy: seq<byte>) returns (ok: bool, code: nat)
    ensures ok <==> RegistrySound(g, m) && exists c :: CodeSound(g.referenced, c, m.limits, copy)
    ensures ok ==> forall c :: CodeSound(g.referenced, c, m.limits, copy) <==> c == code
  {
    if g.pid != m.pid || |g.observed| != m.observedCount || |g.referenced| != m.allocationCount {
      return false, 0;
    }
    if m.traceAllocations != |g.observed| || m.traceQueues != |g.queues| {
      return false, 0;
    }
    var distinct := CheckObserved(g.observed);
    if !distinct {
      return false, 0;
    }
    var backed, total, roles, residents := CheckReferenced(g.referenced, g.observed);
    if !backed {
      assert exists i :: 0 <= i < |g.referenced| && !ReferenceSound(g.referenced[i], g.observed);
      return false, 0;
    }
    assert g.referenced[..|g.referenced|] == g.referenced;
    assert RolesSound(g.referenced) <==> QueueRing in roles && MqdRole in roles;
    forall c | 0 <= c < |g.referenced|
      ensures CodeSound(g.referenced, c, m.limits, copy) ==> residents == [c]
    {
      OneResident(g.referenced, total, roles, residents, c);
    }
    if total != m.hashedBytes || total > m.limits.hash || QueueRing !in roles || MqdRole !in roles || |residents| != 1 {
      return false, 0;
    }
    code := residents[0];
    OneResident(g.referenced, total, roles, residents, code);
    ok := CopiesClaimed(g.referenced, code) && CodeSound(g.referenced, code, m.limits, copy);
    CopiesMatch(g, code);
    assert (exists c :: CodeSound(g.referenced, c, m.limits, copy)) <==> CodeSound(g.referenced, code, m.limits, copy);
  }

  lemma CopiesMatch(g: RegistrySnapshot, code: nat)
    requires forall i :: 0 <= i < |g.referenced| ==> Backed(g.referenced[i], g.observed)
    requires forall i :: 0 <= i < |g.referenced| ==> (ResidentCode in g.referenced[i].roles <==> i == code)
    ensures CopiesClaimed(g.referenced, code)
       <==> forall i :: 0 <= i < |g.referenced| ==> ReferenceSound(g.referenced[i], g.observed)
  {
  }

  /** The last loop: log artifacts add up to the captured bytes and fit their limit. */
  method CheckLogs(artifacts: seq<Artifact>, l: Limits, logBytes: nat) returns (ok: bool)
    ensures ok <==> LogsSound(artifacts, l, logBytes)
  {
    var sum, fits := 0, true;
    for n := 0 to |artifacts|
      invariant sum == LogBytes(artifacts[..n])
      invariant fits <==> forall i :: 0 <= i < n && IsLog(artifacts[i].path) ==> artifacts[i].size <= l.log
    {
      assert artifacts[..n + 1][..n] == artifacts[..n];
      if IsLog(artifacts[n].path) {
        sum := sum + artifacts[n].size;
        fits := fits && artifacts[n].size <= l.log;
      }
    }
    assert artifacts[..|artifacts|] == artifacts;
    ok := sum == logBytes && fits;
  }

  /** One line of the artifact table agrees with the file it names. */
  predicate Listed(a: Artifact, files: map<Path, Content>, render: Render) {
    a.path in files && a.size == |render(files[a.path])| && a.digest == Sha256(render(files[a.path]))
  }

  /** The first n lines of the table name distinct files, collected in `expected`, and agree with them. */
  ghost predicate TableSoFar(artifacts: seq<Artifact>, files: map<Path, Content>, render: Render, n: nat,
                             expected: set<Path>)
    requires n <= |artifacts|
  {
    && (forall i, j :: 0 <= i < j < n ==> artifacts[i].path != artifacts[j].path)
    && (forall i {:trigger artifacts[i]} :: 0 <= i < n ==> Listed(artifacts[i], files, render))
    && (forall p :: p in expected <==> exists i :: 0 <= i < n && artifacts[i].path == p)
  }

  lemma TableStep(artifacts: seq<Artifact>, files: map<Path, Content>, render: Render, n: nat, expected: set<Path>)
    requires n < |artifacts| && TableSoFar(artifacts, files, render, n, expected)
    ensures artifacts[n].path !in expected && Listed(artifacts[n], files, render) ==>
              TableSoFar(artifacts, files, render, n + 1, expected + {artifacts[n].path})
    ensures artifacts[n].path in expected || !Listed(artifacts[n], files, render) ==>
              !TableSound(artifacts, files, render)
  {
  }

  /** The first loop: the artifact table against the files of the directory. */
  method CheckTable(artifacts: seq<Artifact>, files: map<Path, Content>, render: Render) returns (ok: bool)
    ensures ok <==> TableSound(artifacts, files, render)
  {
    if artifacts == [] {
      return false;
    }
    var expected: set<Path> := {};
    for n := 0 to |artifacts|
      invariant TableSoFar(artifacts, files, render, n, expected)
    {
      TableStep(artifacts, files, render, n, expected);
      if artifacts[n].path in expected || !Listed(artifacts[n], files, render) {
        return false;
      }
      expected := expected + {artifacts[n].path};
    }
    ok := expected == files.Keys;
  }

  /** What the selection says of the queue it selects. */
  predicate Selected(q: Queue, s: Selection) {
    && q.active && q.ringVa == s.ringVa && q.ringBytes == s.ringBytes
    && q.readPointer == s.readPointer && q.writePointer == s.writePointer && q.doorbellOffset == s.doorbellOffset
  }

  /** The observed queues with the selected id must be a single one that agrees with the selection. */
  method CheckQueue(queues: seq<Queue>, s: Selection) returns (ok: bool)
    ensures ok <==> QueueSound(queues, s)
  {
    var found: seq<nat> := [];
    for n := 0 to |queues|
      invariant forall c :: 0 <= c < |found| ==> found[c] < n && queues[found[c]].id == s.queueId
      invariant forall c, d :: 0 <= c < d < |found| ==> found[c] < found[d]
      invariant forall i {:trigger queues[i]} :: 0 <= i < n && queues[i].id == s.queueId ==> i in found
    {
      if queues[n].id == s.queueId {
        assert forall i :: i in found ==> i in found + [n];
        assert (found + [n])[|found|] == n;
        found := found + [n];
      }
    }
    if |found| != 1 {
      assert |found| > 1 ==> found[0] < found[1];
      return false;
    }
    ok := Selected(queues[found[0]], s);
  }

  /** `verify`: its checks in turn, the loops above among them. */
  method Verify(c: Capsule, render: Render) returns (ok: bool)
    ensures ok <==> Verifies(c, render)
  {
    var m := c.manifest;
    if !LimitsSound(m.limits, m.logBytes) || m.frontiersBefore != m.frontiersAfter {
      return false;
    }
    var table := CheckTable(m.artifacts, c.files, render);
    if !table || !SelectionSound(m.selection) || m.frontiersBefore != m.selection.frontiers {
      return false;
    }
    if !PacketSound(m.packet, m.selection, m.descriptor) || !NextSound(m.next, m.selection) {
      return false;
    }
    if !FilesSound(c, render) || CodeBin !in c.files || RegistryJson !in c.files {
      return false;
    }
    var registry := c.files[RegistryJson];
    if !registry.Json? || !registry.document.OfRegistry? {
      return false;
    }
    var g := registry.document.registry;
    var snapshot, code := CheckSnapshot(g, m, render(c.files[CodeBin]));
    if !snapshot {
      return false;
    }
    var queue := CheckQueue(g.queues, m.selection);
    var logs := CheckLogs(m.artifacts, m.limits, m.logBytes);
    if !queue || !logs {
      return false;
    }
    assert CrossLinked(c, g, code, render);
    ok := HoldsDescriptor(c, g, code, render);
  }
}
