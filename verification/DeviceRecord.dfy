/** The 320-byte device record: how it is published and how `gemsim_smi` decodes it. */
module DeviceRecord {
  import opened Bytes
  import opened PosixPath
  import opened Wrappers

  const DEVICE_COUNT: nat := 16
  const RECORD_BYTES: nat := 320
  const PAYLOAD_BYTES: nat := 288
  const ENDPOINT_BYTES: nat := 112

  function Magic(): (m: seq<byte>)
    ensures |m| == 8
  {
    [83, 65, 71, 82, 83, 77, 73, 49]
  }

  datatype Record = Record(
    slot: nat,
    flags: nat,
    ownerPid: nat,
    daemonPid: nat,
    ownerStart: nat,
    daemonStart: nat,
    epoch: nat,
    connection: nat,
    rank: nat,
    world: nat,
    jobUuid: seq<byte>,
    daemonUuid: seq<byte>,
    gem5Device: nat,
    gem5Inode: nat,
    publishedAt: nat,
    endpoint: seq<byte>)

  /** SHA-256 is any function with 32-byte results. */
  type Hash = seq<byte> -> seq<byte>

  ghost predicate IsHash(sha: Hash) {
    forall s :: |sha(s)| == 32
  }

  predicate Ascii(s: seq<byte>) {
    forall i :: 0 <= i < |s| ==> s[i] < 128
  }

  function Text(s: seq<byte>): (t: string)
    requires Ascii(s)
    ensures |t| == |s|
  {
    seq(|s|, i requires 0 <= i < |s| => s[i] as char)
  }

  /** What `build_payload` can be given: numbers that fit their fields, a short job id, any endpoint. */
  predicate Buildable(r: Record) {
    && r.slot < Span(4) && r.flags < Span(4) && r.ownerPid < Span(4) && r.daemonPid < Span(4)
    && r.ownerStart < Span(8) && r.daemonStart < Span(8) && r.epoch < Span(8) && r.connection < Span(8)
    && r.rank < Span(4) && r.world < Span(4) && |r.jobUuid| <= 16 && |r.daemonUuid| == 16
    && r.gem5Device < Span(8) && r.gem5Inode < Span(8) && r.publishedAt < Span(8)
    && |r.endpoint| < Span(4)
  }

  /** The job id is whole and the endpoint fits the payload. */
  predicate Fits(r: Record) {
    Buildable(r) && |r.jobUuid| == 16 && |r.endpoint| <= PAYLOAD_BYTES - 136
  }

  // ----- Publishing -----

  /** Bytes 0 to 32. */
  function Header(version: nat, size: nat, slot: nat, flags: nat, ownerPid: nat, daemonPid: nat): (parts: seq<seq<byte>>)
    requires version < Span(4) && size < Span(4) && slot < Span(4) && flags < Span(4)
    requires ownerPid < Span(4) && daemonPid < Span(4)
  {
    [ Magic(), Pack(version, 4), Pack(size, 4), Pack(slot, 4), Pack(flags, 4), Pack(ownerPid, 4), Pack(daemonPid, 4) ]
  }

  function Identity(r: Record): (parts: seq<seq<byte>>)
    requires Buildable(r)
  {
    Spans();
    Header(1, RECORD_BYTES, r.slot, r.flags, r.ownerPid, r.daemonPid)
  }

  /** Bytes 32 to 64. */
  function Times(r: Record): (parts: seq<seq<byte>>)
    requires Buildable(r)
  {
    [ Pack(r.ownerStart, 8), Pack(r.daemonStart, 8), Pack(r.epoch, 8), Pack(r.connection, 8) ]
  }

  /** Bytes 64 to 104; a short job id leaves zeros behind and makes the buffer shorter. */
  function Job(r: Record): (parts: seq<seq<byte>>)
    requires Buildable(r)
  {
    [ Pack(r.rank, 4), Pack(r.world, 4), r.jobUuid + Zeros(16 - |r.jobUuid|), r.daemonUuid ]
  }

  /** What is left of the buffer behind the endpoint; a longer endpoint makes the buffer longer. */
  function Padding(r: Record): nat
    requires Buildable(r)
  {
    var size := PAYLOAD_BYTES - (16 - |r.jobUuid|);
    if 136 + |r.endpoint| < size then size - 136 - |r.endpoint| else 0
  }

  /** Bytes 104 to the end. */
  function Place(r: Record): (parts: seq<seq<byte>>)
    requires Buildable(r)
  {
    Spans();
    [ Pack(r.gem5Device, 8), Pack(r.gem5Inode, 8), Pack(r.publishedAt, 8), Pack(|r.endpoint|, 4), Zeros(4), r.endpoint,
      Zeros(Padding(r)) ]
  }

  function Payload(r: Record): (bs: seq<byte>)
    requires Buildable(r)
  {
    Join(Identity(r)) + Join(Times(r)) + Join(Job(r)) + Join(Place(r))
  }

  /** `build_payload`. */
  function Encode(r: Record, sha: Hash): (bs: seq<byte>)
    requires Buildable(r)
  {
    Payload(r) + sha(Payload(r))
  }

  // ----- Decoding -----

  /** The fields as they lie in the payload. */
  function Fields(p: seq<byte>, size: nat): (r: Record)
    requires |p| == RECORD_BYTES && size <= PAYLOAD_BYTES - 136
    ensures Fits(r)
  {
    Record(
      BigNumber(p, 16, 4), BigNumber(p, 20, 4), BigNumber(p, 24, 4), BigNumber(p, 28, 4),
      BigNumber(p, 32, 8), BigNumber(p, 40, 8), BigNumber(p, 48, 8), BigNumber(p, 56, 8),
      BigNumber(p, 64, 4), BigNumber(p, 68, 4), p[72..88], p[88..104],
      BigNumber(p, 104, 8), BigNumber(p, 112, 8), BigNumber(p, 120, 8), p[136..136 + size])
  }

  predicate Nonzero(r: Record) {
    && r.ownerPid != 0 && r.daemonPid != 0 && r.ownerStart != 0 && r.daemonStart != 0
    && r.epoch != 0 && r.connection != 0 && r.gem5Inode != 0 && r.publishedAt != 0
    && r.jobUuid != Zeros(16) && r.daemonUuid != Zeros(16)
    && r.rank < r.world <= DEVICE_COUNT
  }

  /** `_decode_record`. */
  function Decode(p: seq<byte>, device: nat, sha: Hash): (r: Result<Record, string>) {
    if |p| != RECORD_BYTES then Failure("wrong size")
    else
    :- Need(sha(p[..PAYLOAD_BYTES]) == p[PAYLOAD_BYTES..], "digest differs");
    :- Need(p[..8] == Magic(), "magic differs");
    :- Need(BigNumber(p, 8, 4) == 1 && BigNumber(p, 12, 4) == RECORD_BYTES && BigNumber(p, 16, 4) == device, "identity differs");
    :- Need(BigNumber(p, 20, 4) <= 1, "flags differ");
    var size := BigNumber(p, 128, 4);
    :- Need(0 < size < ENDPOINT_BYTES, "fields are invalid");
    var fields := Fields(p, size);
    :- Need(
         && Nonzero(fields) && p[132..136] == Zeros(4)
         && p[136 + size..PAYLOAD_BYTES] == Zeros(PAYLOAD_BYTES - 136 - size),
         "fields are invalid");
    :- Need(Ascii(fields.endpoint), "endpoint is not ASCII");
    :- Need(IsAbsoluteNormal(Text(fields.endpoint)), "endpoint is not normalized");
    Success(fields)
  }

  /** What a record must satisfy to be shown for a device. */
  predicate Valid(r: Record, device: nat) {
    && Fits(r) && r.slot == device && r.flags <= 1 && Nonzero(r)
    && 0 < |r.endpoint| < ENDPOINT_BYTES && Ascii(r.endpoint) && IsAbsoluteNormal(Text(r.endpoint))
  }

  // ----- The two agree -----

  lemma IdentityOffsets(r: Record)
    requires Buildable(r)
    ensures var s := Identity(r);
            && Offset(s, 0) == 0 && Offset(s, 1) == 8 && Offset(s, 2) == 12 && Offset(s, 3) == 16 && Offset(s, 4) == 20
            && Offset(s, 5) == 24 && Offset(s, 6) == 28 && Offset(s, 7) == 32 && |Join(s)| == 32
  {
    Spans();
    JoinLength(Identity(r));
  }

  lemma TimesOffsets(r: Record)
    requires Buildable(r)
    ensures var s := Times(r);
            && Offset(s, 0) == 0 && Offset(s, 1) == 8 && Offset(s, 2) == 16 && Offset(s, 3) == 24 && Offset(s, 4) == 32
            && |Join(s)| == 32
  {
    JoinLength(Times(r));
  }

  lemma JobOffsets(r: Record)
    requires Buildable(r)
    ensures var s := Job(r);
            && Offset(s, 0) == 0 && Offset(s, 1) == 4 && Offset(s, 2) == 8 && Offset(s, 3) == 24 && Offset(s, 4) == 40
            && |Join(s)| == 40
  {
    JoinLength(Job(r));
  }

  lemma PlaceOffsets(r: Record)
    requires Buildable(r)
    ensures var s := Place(r);
            && Offset(s, 0) == 0 && Offset(s, 1) == 8 && Offset(s, 2) == 16 && Offset(s, 3) == 24 && Offset(s, 4) == 28
            && Offset(s, 5) == 32 && Offset(s, 6) == 32 + |r.endpoint|
            && Offset(s, 7) == 32 + |r.endpoint| + Padding(r) && |Join(s)| == 32 + |r.endpoint| + Padding(r)
  {
    Spans();
    JoinLength(Place(r));
  }

  lemma IdentityHeld(r: Record, p: seq<byte>)
    requires Fits(r) && HoldsAt(p, 0, Identity(r))
    ensures |p| >= 32 && p[0..8] == Magic() && BigNumber(p, 8, 4) == 1 && BigNumber(p, 12, 4) == RECORD_BYTES
    ensures BigNumber(p, 16, 4) == r.slot && BigNumber(p, 20, 4) == r.flags
    ensures BigNumber(p, 24, 4) == r.ownerPid && BigNumber(p, 28, 4) == r.daemonPid
  {
    var s := Identity(r);
    Spans();
    IdentityOffsets(r);
    PartInside(p, 0, s, 0, 0, 8);
    PartInside(p, 0, s, 1, 8, 12);
    PartInside(p, 0, s, 2, 12, 16);
    PartInside(p, 0, s, 3, 16, 20);
    PartInside(p, 0, s, 4, 20, 24);
    PartInside(p, 0, s, 5, 24, 28);
    PartInside(p, 0, s, 6, 28, 32);
  }

  lemma TimesHeld(r: Record, p: seq<byte>)
    requires Fits(r) && HoldsAt(p, 32, Times(r))
    ensures |p| >= 64 && BigNumber(p, 32, 8) == r.ownerStart && BigNumber(p, 40, 8) == r.daemonStart
    ensures BigNumber(p, 48, 8) == r.epoch && BigNumber(p, 56, 8) == r.connection
  {
    var s := Times(r);
    TimesOffsets(r);
    PartInside(p, 32, s, 0, 32, 40);
    PartInside(p, 32, s, 1, 40, 48);
    PartInside(p, 32, s, 2, 48, 56);
    PartInside(p, 32, s, 3, 56, 64);
  }

  lemma JobHeld(r: Record, p: seq<byte>)
    requires Fits(r) && HoldsAt(p, 64, Job(r))
    ensures |p| >= 104 && BigNumber(p, 64, 4) == r.rank && BigNumber(p, 68, 4) == r.world
    ensures p[72..88] == r.jobUuid && p[88..104] == r.daemonUuid
  {
    var s := Job(r);
    JobOffsets(r);
    PartInside(p, 64, s, 0, 64, 68);
    PartInside(p, 64, s, 1, 68, 72);
    PartInside(p, 64, s, 2, 72, 88);
    PartInside(p, 64, s, 3, 88, 104);
    assert r.jobUuid + Zeros(0) == r.jobUuid;
  }

  lemma PlaceHeld(r: Record, p: seq<byte>)
    requires Fits(r) && HoldsAt(p, 104, Place(r))
    ensures |p| >= PAYLOAD_BYTES && BigNumber(p, 104, 8) == r.gem5Device && BigNumber(p, 112, 8) == r.gem5Inode
    ensures BigNumber(p, 120, 8) == r.publishedAt && BigNumber(p, 128, 4) == |r.endpoint|
    ensures p[132..136] == Zeros(4) && p[136..136 + |r.endpoint|] == r.endpoint
    ensures p[136 + |r.endpoint|..PAYLOAD_BYTES] == Zeros(PAYLOAD_BYTES - 136 - |r.endpoint|)
  {
    var s := Place(r);
    Spans();
    PlaceOffsets(r);
    PartInside(p, 104, s, 0, 104, 112);
    PartInside(p, 104, s, 1, 112, 120);
    PartInside(p, 104, s, 2, 120, 128);
    PartInside(p, 104, s, 3, 128, 132);
    PartInside(p, 104, s, 4, 132, 136);
    PartInside(p, 104, s, 5, 136, 136 + |r.endpoint|);
    PartInside(p, 104, s, 6, 136 + |r.endpoint|, PAYLOAD_BYTES);
  }

  lemma PayloadHolds(r: Record, tail: seq<byte>)
    requires Buildable(r)
    ensures var p := Payload(r) + tail;
            && |Payload(r)| == 136 + |r.endpoint| + Padding(r) && HoldsAt(p, 0, Identity(r)) && HoldsAt(p, 32, Times(r))
            && HoldsAt(p, 64, Job(r)) && HoldsAt(p, 104, Place(r))
  {
    IdentityOffsets(r);
    TimesOffsets(r);
    JobOffsets(r);
    PlaceOffsets(r);
    FourPieces(Join(Identity(r)), Join(Times(r)), Join(Job(r)), Join(Place(r)), tail);
  }

  lemma FourPieces(a: seq<byte>, b: seq<byte>, c: seq<byte>, d: seq<byte>, tail: seq<byte>)
    ensures var s := a + b + c + d + tail;
            && s[0..|a|] == a && s[|a|..|a| + |b|] == b && s[|a| + |b|..|a| + |b| + |c|] == c
            && s[|a| + |b| + |c|..|a| + |b| + |c| + |d|] == d
  {
  }

  /** The fixed bytes and the padding around an endpoint of the given size. */
  predicate Framed(p: seq<byte>, size: nat, sha: Hash) {
    && |p| == RECORD_BYTES && sha(p[..PAYLOAD_BYTES]) == p[PAYLOAD_BYTES..]
    && p[..8] == Magic() && BigNumber(p, 8, 4) == 1 && BigNumber(p, 12, 4) == RECORD_BYTES && BigNumber(p, 128, 4) == size
    && size <= PAYLOAD_BYTES - 136
    && p[132..136] == Zeros(4) && p[136 + size..PAYLOAD_BYTES] == Zeros(PAYLOAD_BYTES - 136 - size)
  }

  lemma DecodeFramed(p: seq<byte>, size: nat, device: nat, sha: Hash)
    requires Framed(p, size, sha)
    ensures Decode(p, device, sha).Success? <==> Valid(Fields(p, size), device)
    ensures Valid(Fields(p, size), device) ==> Decode(p, device, sha) == Success(Fields(p, size))
  {
  }

  lemma DecodedIsFramed(p: seq<byte>, device: nat, sha: Hash)
    requires Decode(p, device, sha).Success?
    ensures |p| == RECORD_BYTES && Framed(p, BigNumber(p, 128, 4), sha)
  {
  }

  lemma FittingDecodes(r: Record, device: nat, sha: Hash)
    requires Fits(r) && IsHash(sha)
    ensures Decode(Encode(r, sha), device, sha).Success? <==> Valid(r, device)
    ensures Valid(r, device) ==> Decode(Encode(r, sha), device, sha) == Success(r)
  {
    var p := Encode(r, sha);
    PayloadHolds(r, sha(Payload(r)));
    IdentityHeld(r, p);
    TimesHeld(r, p);
    JobHeld(r, p);
    PlaceHeld(r, p);
    assert p[..PAYLOAD_BYTES] == Payload(r) && p[PAYLOAD_BYTES..] == sha(Payload(r));
    assert p[..8] == p[0..8];
    DecodeFramed(p, |r.endpoint|, device, sha);
  }

  /** A short job id or a long endpoint gives a record of the wrong size, or one whose endpoint is too long. */
  lemma MisfitIsRefused(r: Record, device: nat, sha: Hash)
    requires Buildable(r) && !Fits(r) && IsHash(sha)
    ensures Decode(Encode(r, sha), device, sha).Failure?
  {
    var p := Encode(r, sha);
    PayloadHolds(r, sha(Payload(r)));
    if |p| == RECORD_BYTES {
      Spans();
      PlaceOffsets(r);
      PartInside(p, 104, Place(r), 3, 128, 132);
      assert BigNumber(p, 128, 4) == PAYLOAD_BYTES - 136;
    }
  }

  /**
   Whatever `build_payload` is given, its record is accepted exactly when its
   fields are valid for the device, and decodes to exactly what was published.
   */
  lemma DecodeInvertsEncode(r: Record, device: nat, sha: Hash)
    requires Buildable(r) && IsHash(sha)
    ensures Decode(Encode(r, sha), device, sha).Success? <==> Valid(r, device)
    ensures Valid(r, device) ==> Decode(Encode(r, sha), device, sha) == Success(r)
  {
    if Fits(r) {
      FittingDecodes(r, device, sha);
    } else {
      MisfitIsRefused(r, device, sha);
    }
  }

  lemma PackNumber(p: seq<byte>, offset: nat, width: nat)
    requires offset + width <= |p|
    ensures Pack(BigNumber(p, offset, width), width) == p[offset..offset + width]
  {
    PackInvertsBigEndian(p[offset..offset + width]);
  }

  lemma SliceIs(p: seq<byte>, cuts: seq<nat>, k: nat, low: nat, high: nat)
    requires AreCuts(cuts, |p|) && k + 1 < |cuts| && cuts[k] == low && cuts[k + 1] == high
    ensures low <= high <= |p| && Slices(p, cuts)[k] == p[low..high]
  {
  }

  function IdentityCuts(): (cuts: seq<nat>)
    ensures AreCuts(cuts, 32)
  {
    [0, 8, 12, 16, 20, 24, 28, 32]
  }

  lemma HeaderParts(p: seq<byte>, version: nat, size: nat, slot: nat, flags: nat, ownerPid: nat, daemonPid: nat)
    requires |p| == RECORD_BYTES && p[0..8] == Magic() && version == BigNumber(p, 8, 4) && size == BigNumber(p, 12, 4)
    requires slot == BigNumber(p, 16, 4) && flags == BigNumber(p, 20, 4)
    requires ownerPid == BigNumber(p, 24, 4) && daemonPid == BigNumber(p, 28, 4)
    ensures Header(version, size, slot, flags, ownerPid, daemonPid) == Slices(p, IdentityCuts())
  {
    PackNumber(p, 8, 4);
    PackNumber(p, 12, 4);
    PackNumber(p, 16, 4);
    PackNumber(p, 20, 4);
    PackNumber(p, 24, 4);
    PackNumber(p, 28, 4);
    var cuts := IdentityCuts();
    SliceIs(p, cuts, 0, 0, 8);
    SliceIs(p, cuts, 1, 8, 12);
    SliceIs(p, cuts, 2, 12, 16);
    SliceIs(p, cuts, 3, 16, 20);
    SliceIs(p, cuts, 4, 20, 24);
    SliceIs(p, cuts, 5, 24, 28);
    SliceIs(p, cuts, 6, 28, 32);
  }

  function TimesCuts(): (cuts: seq<nat>)
    ensures AreCuts(cuts, 64)
  {
    [32, 40, 48, 56, 64]
  }

  lemma TimesParts(p: seq<byte>, r: Record)
    requires Fits(r) && |p| == RECORD_BYTES
    requires r.ownerStart == BigNumber(p, 32, 8) && r.daemonStart == BigNumber(p, 40, 8)
    requires r.epoch == BigNumber(p, 48, 8) && r.connection == BigNumber(p, 56, 8)
    ensures Times(r) == Slices(p, TimesCuts())
  {
    PackNumber(p, 32, 8);
    PackNumber(p, 40, 8);
    PackNumber(p, 48, 8);
    PackNumber(p, 56, 8);
    var cuts := TimesCuts();
    SliceIs(p, cuts, 0, 32, 40);
    SliceIs(p, cuts, 1, 40, 48);
    SliceIs(p, cuts, 2, 48, 56);
    SliceIs(p, cuts, 3, 56, 64);
  }

  function JobCuts(): (cuts: seq<nat>)
    ensures AreCuts(cuts, 104)
  {
    [64, 68, 72, 88, 104]
  }

  lemma JobParts(p: seq<byte>, r: Record)
    requires Fits(r) && |p| == RECORD_BYTES && r.rank == BigNumber(p, 64, 4) && r.world == BigNumber(p, 68, 4)
    requires r.jobUuid == p[72..88] && r.daemonUuid == p[88..104]
    ensures Job(r) == Slices(p, JobCuts())
  {
    PackNumber(p, 64, 4);
    PackNumber(p, 68, 4);
    var cuts := JobCuts();
    SliceIs(p, cuts, 0, 64, 68);
    SliceIs(p, cuts, 1, 68, 72);
    SliceIs(p, cuts, 2, 72, 88);
    SliceIs(p, cuts, 3, 88, 104);
    assert r.jobUuid + Zeros(0) == r.jobUuid;
  }

  function PlaceCuts(size: nat): (cuts: seq<nat>)
    requires size <= PAYLOAD_BYTES - 136
    ensures AreCuts(cuts, PAYLOAD_BYTES)
  {
    [104, 112, 120, 128, 132, 136, 136 + size, PAYLOAD_BYTES]
  }

  lemma PlaceParts(p: seq<byte>, r: Record, size: nat)
    requires Fits(r) && |p| == RECORD_BYTES && size == |r.endpoint| && size == BigNumber(p, 128, 4)
    requires r.gem5Device == BigNumber(p, 104, 8) && r.gem5Inode == BigNumber(p, 112, 8) && r.publishedAt == BigNumber(p, 120, 8)
    requires p[132..136] == Zeros(4) && r.endpoint == p[136..136 + size]
    requires p[136 + size..PAYLOAD_BYTES] == Zeros(PAYLOAD_BYTES - 136 - size)
    ensures Place(r) == Slices(p, PlaceCuts(size))
  {
    Spans();
    PackNumber(p, 104, 8);
    PackNumber(p, 112, 8);
    PackNumber(p, 120, 8);
    PackNumber(p, 128, 4);
    var cuts := PlaceCuts(size);
    SliceIs(p, cuts, 0, 104, 112);
    SliceIs(p, cuts, 1, 112, 120);
    SliceIs(p, cuts, 2, 120, 128);
    SliceIs(p, cuts, 3, 128, 132);
    SliceIs(p, cuts, 4, 132, 136);
    SliceIs(p, cuts, 5, 136, 136 + size);
    SliceIs(p, cuts, 6, 136 + size, PAYLOAD_BYTES);
  }

  lemma JoinedAgain(p: seq<byte>, size: nat)
    requires |p| == RECORD_BYTES && size <= PAYLOAD_BYTES - 136
    ensures Join(Slices(p, IdentityCuts())) + Join(Slices(p, TimesCuts())) + Join(Slices(p, JobCuts()))
            + Join(Slices(p, PlaceCuts(size)))
         == p[..PAYLOAD_BYTES]
  {
    JoinOfSlices(p, IdentityCuts());
    JoinOfSlices(p, TimesCuts());
    JoinOfSlices(p, JobCuts());
    JoinOfSlices(p, PlaceCuts(size));
    assert p[0..32] + p[32..64] + p[64..104] + p[104..PAYLOAD_BYTES] == p[..PAYLOAD_BYTES];
  }

  lemma ReEncoded(p: seq<byte>, r: Record, size: nat)
    requires |p| == RECORD_BYTES && p[..8] == Magic() && BigNumber(p, 8, 4) == 1 && BigNumber(p, 12, 4) == RECORD_BYTES
    requires size <= PAYLOAD_BYTES - 136 && size == BigNumber(p, 128, 4) && p[132..136] == Zeros(4)
    requires p[136 + size..PAYLOAD_BYTES] == Zeros(PAYLOAD_BYTES - 136 - size)
    requires r == Fields(p, size)
    ensures Payload(r) == p[..PAYLOAD_BYTES]
  {
    HeaderParts(p, BigNumber(p, 8, 4), BigNumber(p, 12, 4), r.slot, r.flags, r.ownerPid, r.daemonPid);
    TimesParts(p, r);
    JobParts(p, r);
    PlaceParts(p, r, size);
    JoinedAgain(p, size);
  }

  /**
   Conversely every accepted payload is the encoding of its decoded fields:
   no byte of it is free.
   */
  lemma EncodeInvertsDecode(p: seq<byte>, device: nat, sha: Hash)
    requires Decode(p, device, sha).Success?
    ensures Valid(Decode(p, device, sha).value, device)
    ensures Encode(Decode(p, device, sha).value, sha) == p
  {
    DecodedIsFramed(p, device, sha);
    var size := BigNumber(p, 128, 4);
    DecodeFramed(p, size, device, sha);
    ReEncoded(p, Fields(p, size), size);
    assert p == p[..PAYLOAD_BYTES] + p[PAYLOAD_BYTES..];
  }

  // ----- Told without the names above -----

  /** The first eight bytes spell the name of the format. */
  lemma MagicIsText()
    ensures forall i :: 0 <= i < 8 ==> Magic()[i] == "SAGRSMI1"[i] as byte
  {
  }

  /** Where each field of a record lies, for readers other than `Decode`. */
  lemma EncodedLayout(r: Record, sha: Hash)
    requires Fits(r) && IsHash(sha)
    ensures var p := Encode(r, sha);
            && |p| == 320 && p[288..] == sha(p[..288]) && p[..8] == Magic()
            && BigEndian(p[8..12]) == 1 && BigEndian(p[12..16]) == 320
            && BigEndian(p[16..20]) == r.slot && BigEndian(p[20..24]) == r.flags
            && BigEndian(p[24..28]) == r.ownerPid && BigEndian(p[28..32]) == r.daemonPid
            && BigEndian(p[32..40]) == r.ownerStart && BigEndian(p[40..48]) == r.daemonStart
            && BigEndian(p[48..56]) == r.epoch && BigEndian(p[56..64]) == r.connection
            && BigEndian(p[64..68]) == r.rank && BigEndian(p[68..72]) == r.world
            && p[72..88] == r.jobUuid && p[88..104] == r.daemonUuid
            && BigEndian(p[104..112]) == r.gem5Device && BigEndian(p[112..120]) == r.gem5Inode
            && BigEndian(p[120..128]) == r.publishedAt && BigEndian(p[128..132]) == |r.endpoint| <= 152
            && p[136..136 + |r.endpoint|] == r.endpoint
            && forall i :: 132 <= i < 136 || 136 + |r.endpoint| <= i < 288 ==> p[i] == 0
  {
    var p := Encode(r, sha);
    PayloadHolds(r, sha(Payload(r)));
    IdentityHeld(r, p);
    TimesHeld(r, p);
    JobHeld(r, p);
    PlaceHeld(r, p);
    assert p[..PAYLOAD_BYTES] == Payload(r) && p[PAYLOAD_BYTES..] == sha(Payload(r));
    assert p[..8] == p[0..8];
    forall i | 132 <= i < 136 || 136 + |r.endpoint| <= i < 288
      ensures p[i] == 0
    {
      if i < 136 {
        assert p[i] == p[132..136][i - 132];
      } else {
        assert p[i] == p[136 + |r.endpoint|..288][i - 136 - |r.endpoint|];
      }
    }
  }

  /**
   The publisher sets flags 0, first epoch and first connection, and checks slot
   and rank only.  Its record is shown exactly when also the world is at most 16,
   the endpoint is a short normalized ASCII path, the job id has 16 bytes, and the
   identities it looked up are real.
   */
  lemma PublishedIsShownExactly(r: Record, sha: Hash)
    requires Buildable(r) && IsHash(sha)
    requires r.flags == 0 && r.epoch == 1 && r.connection == 1 && r.slot < 16 && r.rank < r.world
    ensures Decode(Encode(r, sha), r.slot, sha).Success? <==>
              && r.world <= 16
              && 0 < |r.endpoint| < 112 && (forall i :: 0 <= i < |r.endpoint| ==> r.endpoint[i] <= 127)
              && IsAbsoluteNormal(Text(r.endpoint))
              && |r.jobUuid| == 16 && r.jobUuid != Zeros(16) && r.daemonUuid != Zeros(16)
              && r.ownerPid != 0 && r.daemonPid != 0 && r.ownerStart != 0 && r.daemonStart != 0
              && r.gem5Inode != 0 && r.publishedAt != 0
  {
    DecodeInvertsEncode(r, r.slot, sha);
  }
}
