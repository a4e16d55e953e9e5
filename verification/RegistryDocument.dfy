/** The live-registry document and the checks it must pass before it is published or believed. */
module RegistryDocument {
  import opened Wrappers
  import PosixPath

  datatype State = STARTING | READY | OFF

  datatype RankEntry = RankEntry(
    rank: int,
    worldSize: int,
    state: State,
    workerPid: Option<int>,
    daemonPid: Option<int>,
    daemonUuid: Option<string>,
    endpoint: string,
    runtimeDirectory: string,
    tritonCacheDirectory: string,
    gem5CacheDirectory: string)

  datatype Document = Document(
    generation: int,
    state: State,
    updatedAtNs: int,
    supervisorPid: int,
    supervisorStartTime: int,
    leasePath: string,
    jobUuid: string,
    epoch: int,
    worldSize: int,
    ranks: seq<RankEntry>)

  predicate IsHexDigit(c: char) {
    '0' <= c <= '9' || 'a' <= c <= 'f'
  }

  predicate IsHex32(s: string) {
    |s| == 32 && forall i :: 0 <= i < |s| ==> IsHexDigit(s[i])
  }

  predicate IsZeroUuid(s: string) {
    forall i :: 0 <= i < |s| ==> s[i] == '0'
  }

  /** `_canonical_uuid`: 32 lowercase hex digits, not all zero. */
  predicate CanonicalUuid(s: string) {
    IsHex32(s) && !IsZeroUuid(s)
  }

  predicate ValidPaths(r: RankEntry) {
    && PosixPath.IsAbsoluteNormal(r.endpoint)
    && PosixPath.IsAbsoluteNormal(r.runtimeDirectory)
    && PosixPath.IsAbsoluteNormal(r.tritonCacheDirectory)
    && PosixPath.IsAbsoluteNormal(r.gem5CacheDirectory)
  }

  /** `_validate_registry_rank`. */
  predicate ValidRank(r: RankEntry, state: State, world: int) {
    && 0 <= r.rank < world && r.worldSize == world
    && r.state == state
    && (r.workerPid.Some? ==> r.workerPid.value > 0)
    && (if state == READY then
          && r.workerPid.Some? && r.workerPid.value > 0
          && r.daemonPid.Some? && r.daemonPid.value > 0
          && r.daemonUuid.Some? && CanonicalUuid(r.daemonUuid.value)
        else
          && (r.daemonPid.Some? ==> r.daemonPid.value > 0)
          && (r.daemonUuid.Some? ==> CanonicalUuid(r.daemonUuid.value)))
    && ValidPaths(r)
  }

  /** `validate_live_registry`. */
  predicate ValidDocument(d: Document) {
    && d.generation > 0
    && d.updatedAtNs > 0
    && d.supervisorPid > 0
    && d.supervisorStartTime > 0
    && PosixPath.IsAbsoluteNormal(d.leasePath)
    && CanonicalUuid(d.jobUuid)
    && d.epoch > 0
    && d.worldSize > 0
    && |d.ranks| == d.worldSize
    && (forall i :: 0 <= i < |d.ranks| ==> ValidRank(d.ranks[i], d.state, d.worldSize))
    && (forall i :: 0 <= i < |d.ranks| ==> d.ranks[i].rank == i)
  }

  // ----- The checks, told once more -----

  /** Lowercase hex digits, one of them not 0. */
  predicate IsUuid(s: string) {
    |s| == 32 && (forall i :: 0 <= i < 32 ==> s[i] in "0123456789abcdef") && exists i :: 0 <= i < 32 && s[i] != '0'
  }

  /** An absolute path without a ".." component. */
  predicate IsPlace(s: string) {
    s != "" && s[0] == '/' && ".." !in PosixPath.Split(s)
  }

  /** Entry i is about rank i, agrees with the document, and reports nothing that is not real. */
  predicate Sound(r: RankEntry, i: nat, d: Document) {
    && r.rank == i && r.state == d.state && r.worldSize == |d.ranks|
    && (r.workerPid == None || r.workerPid.value > 0) && (r.daemonPid == None || r.daemonPid.value > 0)
    && (r.daemonUuid == None || IsUuid(r.daemonUuid.value))
    && IsPlace(r.endpoint) && IsPlace(r.runtimeDirectory) && IsPlace(r.tritonCacheDirectory) && IsPlace(r.gem5CacheDirectory)
  }

  lemma UuidExactly(s: string)
    ensures CanonicalUuid(s) <==> IsUuid(s)
  {
    forall i | 0 <= i < |s|
      ensures IsHexDigit(s[i]) <==> s[i] in "0123456789abcdef"
    {
      HexDigitExactly(s[i]);
    }
  }

  lemma HexDigitExactly(c: char)
    ensures IsHexDigit(c) <==> c in "0123456789abcdef"
  {
    var digits := "0123456789abcdef";
    if '0' <= c <= '9' {
      assert digits[c as int - '0' as int] == c;
    } else if 'a' <= c <= 'f' {
      assert digits[10 + c as int - 'a' as int] == c;
    }
  }

  lemma RankExactly(r: RankEntry, i: nat, d: Document)
    requires d.worldSize == |d.ranks| && i < |d.ranks|
    ensures ValidRank(r, d.state, d.worldSize) && r.rank == i
       <==> Sound(r, i, d) && (d.state == READY ==> r.workerPid.Some? && r.daemonPid.Some? && r.daemonUuid.Some?)
  {
    PosixPath.AbsoluteNormalMeans(r.endpoint);
    PosixPath.AbsoluteNormalMeans(r.runtimeDirectory);
    PosixPath.AbsoluteNormalMeans(r.tritonCacheDirectory);
    PosixPath.AbsoluteNormalMeans(r.gem5CacheDirectory);
    if r.daemonUuid.Some? {
      UuidExactly(r.daemonUuid.value);
    }
  }

  /** A document is valid exactly when it lists the ranks in order, all alike, and a READY one lists every process. */
  lemma ValidExactly(d: Document)
    ensures ValidDocument(d) <==>
              && d.generation > 0 && d.updatedAtNs > 0 && d.supervisorPid > 0 && d.supervisorStartTime > 0 && d.epoch > 0
              && IsPlace(d.leasePath) && IsUuid(d.jobUuid)
              && |d.ranks| == d.worldSize > 0
              && (forall i :: 0 <= i < |d.ranks| ==> Sound(d.ranks[i], i, d))
              && (d.state == READY ==>
                    forall i :: 0 <= i < |d.ranks| ==>
                      d.ranks[i].workerPid.Some? && d.ranks[i].daemonPid.Some? && d.ranks[i].daemonUuid.Some?)
  {
    PosixPath.AbsoluteNormalMeans(d.leasePath);
    UuidExactly(d.jobUuid);
    if |d.ranks| == d.worldSize {
      forall i | 0 <= i < |d.ranks|
        ensures ValidRank(d.ranks[i], d.state, d.worldSize) && d.ranks[i].rank == i
           <==> Sound(d.ranks[i], i, d)
                && (d.state == READY ==>
                      d.ranks[i].workerPid.Some? && d.ranks[i].daemonPid.Some? && d.ranks[i].daemonUuid.Some?)
      {
        RankExactly(d.ranks[i], i, d);
      }
    }
  }
}
