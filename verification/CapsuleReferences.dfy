/** Which allocation a capsule references, and as what. */
module CapsuleReferences {
  import opened AqlPacket
  import opened AqlQueue
  import opened Bytes
  import opened CapsuleAgreement
  import opened CapsuleCapture
  import opened CapsuleDocument
  import opened CapsuleFiles
  import opened CapsuleRoles
  import opened CapsuleRun
  import opened KmtRegistry
  import opened Wrappers

  /** The word of the kernarg at 8n points into the allocation with this key, its newest owner. */
  ghost predicate WordPoints(payload: seq<byte>, allocations: seq<Allocation>, n: nat, k: Key) {
    && 8 * n + 8 <= |payload|
    && var a := Newest(allocations, LittleNumber(payload, 8 * n, 8), 1);
       a.Some? && Key(a.value.handle, a.value.ordinal) == k
  }

  /** The block was read, from the allocation with this key. */
  predicate From(b: Option<Block>, k: Key) {
    b.Some? && Is(Some(b.value.owner), k)
  }

  /** The allocation is there and has this key. */
  predicate Is(a: Option<Allocation>, k: Key) {
    a.Some? && Key(a.value.handle, a.value.ordinal) == k
  }

  /** What the allocation with this key is to an observation. */
  ghost predicate Plays(o: Observation, allocations: seq<Allocation>, k: Key, role: Role) {
    var kernarg, used := o.resources.kernarg, o.resources.code.descriptor.kernargRead > 0;
    match role
    case QueueRing => From(Some(o.head.block), k) || (o.next.Some? && From(Some(o.next.value.block), k))
    case ResidentCode => From(Some(o.resources.code.block), k)
    case MqdRole => From(Some(o.mqd.block), k)
    case Kernarg => used && From(kernarg, k)
    case KernargProbe => !used && From(kernarg, k)
    case CompletionSignal => From(o.resources.signal, k)
    case PointerCandidate =>
      kernarg.Some? && exists n: nat :: WordPoints(kernarg.value.bytes, allocations, n, k)
    case Scratch => Is(o.mqd.scratch, k)
    case InactiveSignal => Is(o.mqd.inactive, k)
  }

  predicate Has(roles: Roles, k: Key, role: Role) {
    k in roles && role in roles[k]
  }

  /** A key is there only with a role. */
  ghost predicate NoneIdle(roles: Roles) {
    forall k :: k in roles ==> exists role :: role in roles[k]
  }

  lemma OneMoreRole(roles: Roles, a: Option<Allocation>, role: Role, k: Key, other: Role)
    ensures Has(WithOptional(roles, a, role), k, other) <==> Has(roles, k, other) || (Is(a, k) && other == role)
  {
  }

  lemma StillNoneIdle(roles: Roles, a: Option<Allocation>, role: Role)
    requires NoneIdle(roles)
    ensures NoneIdle(WithOptional(roles, a, role))
  {
    if a.Some? {
      var after := WithOptional(roles, a, role);
      assert role in after[KeyOf(a.value)];
      forall x | x in after
        ensures exists r :: r in after[x]
      {
        if x != KeyOf(a.value) {
          assert after[x] == roles[x];
        }
      }
    }
  }

  lemma {:induction false} PointerRoles(roles: Roles, allocations: seq<Allocation>, payload: seq<byte>, n: nat, k: Key, role: Role)
    requires 8 * n <= |payload|
    ensures Has(WithPointers(roles, allocations, payload, n), k, role)
       <==> Has(roles, k, role)
            || (role == PointerCandidate && exists m: nat :: m < n && WordPoints(payload, allocations, m, k))
  {
    if n > 0 {
      PointerRoles(roles, allocations, payload, n - 1, k, role);
      var a := Newest(allocations, WordAt(payload, n - 1), 1);
      OneMoreRole(WithPointers(roles, allocations, payload, n - 1), a, PointerCandidate, k, role);
      assert WordPoints(payload, allocations, n - 1, k) <==> Is(a, k);
    }
  }

  lemma {:induction false} PointersLeaveNoneIdle(roles: Roles, allocations: seq<Allocation>, payload: seq<byte>, n: nat)
    requires 8 * n <= |payload| && NoneIdle(roles)
    ensures NoneIdle(WithPointers(roles, allocations, payload, n))
  {
    if n > 0 {
      PointersLeaveNoneIdle(roles, allocations, payload, n - 1);
      StillNoneIdle(WithPointers(roles, allocations, payload, n - 1), Newest(allocations, WordAt(payload, n - 1), 1),
                    PointerCandidate);
    }
  }

  lemma BaseRolesExactly(o: Observation, k: Key, role: Role)
    ensures Has(BaseRoles(o), k, role) <==> role !in {PointerCandidate, Scratch, InactiveSignal} && Plays(o, [], k, role)
  {
    var ring := WithRole(map[], o.head.block.owner, QueueRing);
    var next := if o.next.Some? then Some(o.next.value.block.owner) else None;
    var both := WithOptional(ring, next, QueueRing);
    var code := WithRole(both, o.resources.code.block.owner, ResidentCode);
    var mqd := WithRole(code, o.mqd.block.owner, MqdRole);
    var kernargRole := KernargRole(o.resources.code.descriptor);
    var kernarg := WithOptional(mqd, OwnerOf(o.resources.kernarg), kernargRole);
    OneMoreRole(map[], Some(o.head.block.owner), QueueRing, k, role);
    OneMoreRole(ring, next, QueueRing, k, role);
    OneMoreRole(both, Some(o.resources.code.block.owner), ResidentCode, k, role);
    OneMoreRole(code, Some(o.mqd.block.owner), MqdRole, k, role);
    OneMoreRole(mqd, OwnerOf(o.resources.kernarg), kernargRole, k, role);
    OneMoreRole(kernarg, OwnerOf(o.resources.signal), CompletionSignal, k, role);
  }

  lemma WordsInside(payload: seq<byte>, allocations: seq<Allocation>, k: Key)
    ensures (exists m: nat :: m < |payload| / 8 && WordPoints(payload, allocations, m, k))
       <==> exists m: nat :: WordPoints(payload, allocations, m, k)
  {
    forall m: nat | WordPoints(payload, allocations, m, k)
      ensures m < |payload| / 8
    {
    }
  }

  lemma AddedRoles(o: Observation, allocations: seq<Allocation>, payload: seq<byte>, k: Key, role: Role)
    requires payload == PayloadOf(o.resources.kernarg)
    ensures Has(RolesOf(o, allocations), k, role) <==>
              || Has(BaseRoles(o), k, role)
              || (role == PointerCandidate && exists n: nat :: WordPoints(payload, allocations, n, k))
              || (role == Scratch && Is(o.mqd.scratch, k))
              || (role == InactiveSignal && Is(o.mqd.inactive, k))
  {
    var n := |payload| / 8;
    PointerRoles(BaseRoles(o), allocations, payload, n, k, role);
    var pointers := WithPointers(BaseRoles(o), allocations, payload, n);
    OneMoreRole(pointers, o.mqd.scratch, Scratch, k, role);
    OneMoreRole(WithOptional(pointers, o.mqd.scratch, Scratch), o.mqd.inactive, InactiveSignal, k, role);
    WordsInside(payload, allocations, k);
  }

  lemma RolesExactly(o: Observation, allocations: seq<Allocation>, k: Key, role: Role)
    ensures Has(RolesOf(o, allocations), k, role) <==> Plays(o, allocations, k, role)
  {
    BaseRolesExactly(o, k, role);
    AddedRoles(o, allocations, PayloadOf(o.resources.kernarg), k, role);
  }

  lemma NoIdleRoles(o: Observation, allocations: seq<Allocation>)
    ensures NoneIdle(RolesOf(o, allocations))
  {
    var ring := WithRole(map[], o.head.block.owner, QueueRing);
    var next := if o.next.Some? then Some(o.next.value.block.owner) else None;
    var both := WithOptional(ring, next, QueueRing);
    var code := WithRole(both, o.resources.code.block.owner, ResidentCode);
    var mqd := WithRole(code, o.mqd.block.owner, MqdRole);
    var kernargRole := KernargRole(o.resources.code.descriptor);
    var kernarg := WithOptional(mqd, OwnerOf(o.resources.kernarg), kernargRole);
    StillNoneIdle(map[], Some(o.head.block.owner), QueueRing);
    StillNoneIdle(ring, next, QueueRing);
    StillNoneIdle(both, Some(o.resources.code.block.owner), ResidentCode);
    StillNoneIdle(code, Some(o.mqd.block.owner), MqdRole);
    StillNoneIdle(mqd, OwnerOf(o.resources.kernarg), kernargRole);
    StillNoneIdle(kernarg, OwnerOf(o.resources.signal), CompletionSignal);
    var payload := PayloadOf(o.resources.kernarg);
    PointersLeaveNoneIdle(BaseRoles(o), allocations, payload, |payload| / 8);
    var pointers := WithPointers(BaseRoles(o), allocations, payload, |payload| / 8);
    StillNoneIdle(pointers, o.mqd.scratch, Scratch);
    StillNoneIdle(WithOptional(pointers, o.mqd.scratch, Scratch), o.mqd.inactive, InactiveSignal);
  }

  /** Scratch memory and the inactive signal are where the queue state says, if it says so. */
  lemma StateNamesAllocations(m: Reader, q: Queue, f: Frontiers, s: MqdState)
    requires ReadMqd(m, q, f) == Success(s)
    ensures var b := s.block.bytes;
            && |b| == 256
            && (if LittleNumber(b, 160, 8) == 0 then s.scratch == None
                else s.scratch.Some? && s.scratch == m.resolve(LittleNumber(b, 160, 8), LittleNumber(b, 168, 8)))
            && (if LittleNumber(b, 192, 8) == 0 then s.inactive == None
                else s.inactive.Some? && s.inactive == m.resolve(LittleNumber(b, 192, 8), 64))
  {
  }

  /** A committed capsule references exactly the allocations that play a role, each with exactly its roles. */
  lemma ReferencesExactly(c: Capsule, i: Input, p: Picked, w: Gathering, contents: Contents, g: RegistrySnapshot, k: Key,
                          role: Role)
    requires Shown(c, i, p, w, contents) && RegistryJson in c.files && c.files[RegistryJson] == Json(OfRegistry(g))
    ensures (exists r :: r in g.referenced && r.identity.key == k && role in r.roles)
       <==> Plays(p.seen, i.registry.allocations, k, role)
    ensures forall m, n :: 0 <= m < n < |g.referenced| ==> g.referenced[m].identity.key != g.referenced[n].identity.key
    ensures forall r :: r in g.referenced ==> r.roles != {}
  {
    RolesExactly(p.seen, i.registry.allocations, k, role);
    NoIdleRoles(p.seen, i.registry.allocations);
    ShownRecords(c, i, p, w, contents, g);
    RecordsExactly(w.records, w.roles, i.registry.allocations, contents, k, role);
  }

  lemma ShownRecords(c: Capsule, i: Input, p: Picked, w: Gathering, contents: Contents, g: RegistrySnapshot)
    requires Shown(c, i, p, w, contents) && RegistryJson in c.files && c.files[RegistryJson] == Json(OfRegistry(g))
    ensures g.referenced == w.records && w.roles == RolesOf(p.seen, i.registry.allocations)
    ensures Recorded(w.records, w.roles.Keys, w.roles, i.registry.allocations, contents)
  {
  }

  lemma RecordsExactly(records: seq<Referenced>, roles: Roles, allocations: seq<Allocation>, contents: Contents, k: Key,
                       role: Role)
    requires Recorded(records, roles.Keys, roles, allocations, contents) && NoneIdle(roles)
    ensures (exists r :: r in records && r.identity.key == k && role in r.roles) <==> Has(roles, k, role)
    ensures forall m, n :: 0 <= m < n < |records| ==> records[m].identity.key != records[n].identity.key
    ensures forall r :: r in records ==> r.roles != {}
  {
    forall r | r in records
      ensures r.identity.key in roles && r.roles == roles[r.identity.key] && r.roles != {}
    {
      var n :| 0 <= n < |records| && records[n] == r;
      assert IsRecord(records[n], roles, allocations, contents);
    }
    if Has(roles, k, role) {
      var n :| 0 <= n < |records| && records[n].identity.key == k;
      assert records[n] in records;
    }
  }
}
