/** Which allocations a capsule references, in which roles, and the records it makes of them. */
module CapsuleRoles {
  import opened AqlPacket
  import opened Bytes
  import opened CapsuleDocument
  import opened KmtRegistry
  import opened Wrappers

  type Roles = map<Key, set<Role>>

  function KeyOf(a: Allocation): Key {
    Key(a.handle, a.ordinal)
  }

  /** The ordinal of an allocation is its place in the registry. */
  predicate IsKey(allocations: seq<Allocation>, k: Key) {
    1 <= k.ordinal <= |allocations| && KeyOf(allocations[k.ordinal - 1]) == k
  }

  ghost predicate Numbered(allocations: seq<Allocation>) {
    && (forall i :: 0 <= i < |allocations| ==> allocations[i].ordinal == i + 1)
    && (forall i :: 0 <= i < |allocations| ==> allocations[i].bytes > 0)
  }

  lemma KeyIsIndex(allocations: seq<Allocation>, a: Allocation)
    requires Numbered(allocations) && a in allocations
    ensures IsKey(allocations, KeyOf(a)) && allocations[a.ordinal - 1] == a
  {
  }

  /** `allocation_role`. */
  function WithRole(roles: Roles, a: Allocation, role: Role): Roles {
    roles[KeyOf(a) := (if KeyOf(a) in roles then roles[KeyOf(a)] else {}) + {role}]
  }

  function WithOptional(roles: Roles, a: Option<Allocation>, role: Role): Roles {
    if a.None? then roles else WithRole(roles, a.value, role)
  }

  /** Every key is an allocation, and the resident code is exactly the given one. */
  ghost predicate RolesFor(roles: Roles, allocations: seq<Allocation>, code: Key) {
    && (forall k :: k in roles ==> IsKey(allocations, k))
    && (forall k :: k in roles ==> (ResidentCode in roles[k] ==> k == code))
  }

  /** Nothing is taken back. */
  ghost predicate Extends(before: Roles, after: Roles) {
    forall k :: k in before ==> k in after && before[k] <= after[k]
  }

  lemma WithRoleKeeps(roles: Roles, allocations: seq<Allocation>, code: Key, a: Allocation, role: Role)
    requires RolesFor(roles, allocations, code) && Numbered(allocations) && a in allocations
    requires role == ResidentCode ==> KeyOf(a) == code
    ensures RolesFor(WithRole(roles, a, role), allocations, code)
    ensures KeyOf(a) in WithRole(roles, a, role) && role in WithRole(roles, a, role)[KeyOf(a)]
    ensures Extends(roles, WithRole(roles, a, role))
  {
    KeyIsIndex(allocations, a);
  }

  lemma WithOptionalKeeps(roles: Roles, allocations: seq<Allocation>, code: Key, a: Option<Allocation>, role: Role)
    requires RolesFor(roles, allocations, code) && Numbered(allocations)
    requires (a.Some? ==> a.value in allocations) && role != ResidentCode
    ensures RolesFor(WithOptional(roles, a, role), allocations, code)
    ensures Extends(roles, WithOptional(roles, a, role))
  {
    if a.Some? {
      WithRoleKeeps(roles, allocations, code, a.value, role);
    }
  }

  // ----- Kernarg words that point into an allocation -----

  function WordAt(payload: seq<byte>, n: nat): nat
    requires 8 * n + 8 <= |payload|
  {
    LittleNumber(payload, 8 * n, 8)
  }

  /** The roles after the first n words. */
  function WithPointers(roles: Roles, allocations: seq<Allocation>, payload: seq<byte>, n: nat): Roles
    requires 8 * n <= |payload|
  {
    if n == 0 then roles
    else
      WithOptional(WithPointers(roles, allocations, payload, n - 1),
                   Newest(allocations, WordAt(payload, n - 1), 1), PointerCandidate)
  }

  /** The words among the first n that point into an allocation, with its newest owner. */
  function PointersIn(allocations: seq<Allocation>, payload: seq<byte>, n: nat): seq<Pointer>
    requires 8 * n <= |payload|
  {
    if n == 0 then []
    else
      var before := PointersIn(allocations, payload, n - 1);
      var word := WordAt(payload, n - 1);
      var a := Newest(allocations, word, 1);
      if a.None? then before else before + [Pointer(8 * (n - 1), word, KeyOf(a.value), word - a.value.va)]
  }

  lemma {:induction false} WithPointersKeeps(roles: Roles, allocations: seq<Allocation>, payload: seq<byte>, n: nat,
                                             code: Key)
    requires 8 * n <= |payload| && RolesFor(roles, allocations, code) && Numbered(allocations)
    ensures RolesFor(WithPointers(roles, allocations, payload, n), allocations, code)
    ensures Extends(roles, WithPointers(roles, allocations, payload, n))
  {
    if n > 0 {
      WithPointersKeeps(roles, allocations, payload, n - 1, code);
      WithOptionalKeeps(WithPointers(roles, allocations, payload, n - 1), allocations, code,
                        Newest(allocations, WordAt(payload, n - 1), 1), PointerCandidate);
    }
  }

  /** What word n adds to the roles and to the pointers. */
  lemma OneMoreWord(start: Roles, allocations: seq<Allocation>, payload: seq<byte>, n: nat, a: Option<Allocation>)
    requires 8 * n + 8 <= |payload| && a == Newest(allocations, WordAt(payload, n), 1)
    ensures WithPointers(start, allocations, payload, n + 1)
         == WithOptional(WithPointers(start, allocations, payload, n), a, PointerCandidate)
    ensures PointersIn(allocations, payload, n + 1)
         == PointersIn(allocations, payload, n) + PointersOf(a, 8 * n, WordAt(payload, n))
  {
  }

  function PointersOf(a: Option<Allocation>, offset: nat, word: nat): seq<Pointer>
    requires a.Some? ==> a.value.Contains(word, 1)
  {
    if a.Some? then [Pointer(offset, word, KeyOf(a.value), word - a.value.va)] else []
  }

  method ScanPointers(start: Roles, allocations: seq<Allocation>, payload: seq<byte>)
    returns (roles: Roles, pointers: seq<Pointer>)
    ensures roles == WithPointers(start, allocations, payload, |payload| / 8)
    ensures pointers == PointersIn(allocations, payload, |payload| / 8)
  {
    roles, pointers := start, [];
    var offset := 0;
    ghost var n := 0;
    while offset + 7 < |payload|
      invariant offset == 8 * n <= |payload|
      invariant roles == WithPointers(start, allocations, payload, n)
      invariant pointers == PointersIn(allocations, payload, n)
    {
      var pointer := LittleNumber(payload, offset, 8);
      var a := Newest(allocations, pointer, 1);
      OneMoreWord(start, allocations, payload, n, a);
      if a.Some? {
        roles := WithRole(roles, a.value, PointerCandidate);
        pointers := pointers + [Pointer(offset, pointer, KeyOf(a.value), pointer - a.value.va)];
      }
      offset := offset + 8;
      n := n + 1;
    }
    assert n == |payload| / 8;
  }

  // ----- Bytes to hash -----

  /** The bytes of the allocations with the given keys, counted along the registry. */
  function Weight(keys: set<Key>, allocations: seq<Allocation>): nat {
    if allocations == [] then 0
    else
      var last := allocations[|allocations| - 1];
      Weight(keys, allocations[..|allocations| - 1]) + if KeyOf(last) in keys then last.bytes else 0
  }

  lemma {:induction false} WeightWithout(keys: set<Key>, allocations: seq<Allocation>, k: Key)
    requires Numbered(allocations) && k in keys && IsKey(allocations, k)
    ensures Weight(keys, allocations) == Weight(keys - {k}, allocations) + allocations[k.ordinal - 1].bytes
  {
    var n := |allocations| - 1;
    var init := allocations[..n];
    if k.ordinal - 1 == n {
      WeightOthers(keys, init, k);
    } else {
      WeightWithout(keys, init, k);
      assert KeyOf(allocations[n]) != k;
    }
  }

  lemma {:induction false} WeightOthers(keys: set<Key>, allocations: seq<Allocation>, k: Key)
    requires Numbered(allocations) && |allocations| < k.ordinal
    ensures Weight(keys, allocations) == Weight(keys - {k}, allocations)
  {
    if allocations != [] {
      WeightOthers(keys, allocations[..|allocations| - 1], k);
    }
  }

  lemma {:induction false} WeightOfNone(allocations: seq<Allocation>)
    ensures Weight({}, allocations) == 0
  {
    if allocations != [] {
      WeightOfNone(allocations[..|allocations| - 1]);
    }
  }

  /** The source sums in the order of its dictionary; any order gives the same sum. */
  method HashBytes(keys: set<Key>, allocations: seq<Allocation>) returns (total: nat)
    requires Numbered(allocations) && forall k :: k in keys ==> IsKey(allocations, k)
    ensures total == Weight(keys, allocations)
  {
    total := 0;
    var left := keys;
    while left != {}
      invariant left <= keys && total + Weight(left, allocations) == Weight(keys, allocations)
      decreases left
    {
      var k :| k in left;
      WeightWithout(left, allocations, k);
      total := total + allocations[k.ordinal - 1].bytes;
      left := left - {k};
    }
    WeightOfNone(allocations);
  }

  // ----- The records -----

  /** The contents of an allocation when it is hashed, or that it cannot be read. */
  type Contents = Allocation -> Option<seq<byte>>

  function RecordOf(a: Allocation, roles: set<Role>, bytes: seq<byte>): Referenced {
    var code := ResidentCode in roles;
    Referenced(IdentityOf(a), roles, Sha256(bytes), a.va, a.bytes, code, if code then Some(CodeBin) else None)
  }

  function At(allocations: seq<Allocation>, k: Key): (a: Allocation)
    requires IsKey(allocations, k)
    ensures a in allocations && KeyOf(a) == k
  {
    allocations[k.ordinal - 1]
  }

  /** The record says what is known of its allocation. */
  ghost predicate IsRecord(r: Referenced, roles: Roles, allocations: seq<Allocation>, contents: Contents) {
    && r.identity.key in roles && IsKey(allocations, r.identity.key)
    && var a := At(allocations, r.identity.key);
       contents(a).Some? && r == RecordOf(a, roles[r.identity.key], contents(a).value)
  }

  /** The records of exactly the given keys, one each. */
  ghost predicate Recorded(records: seq<Referenced>, keys: set<Key>, roles: Roles, allocations: seq<Allocation>,
                           contents: Contents)
  {
    && (forall i :: 0 <= i < |records| ==>
          records[i].identity.key in keys && IsRecord(records[i], roles, allocations, contents))
    && (forall i, j :: 0 <= i < j < |records| ==> records[i].identity.key != records[j].identity.key)
    && (forall k :: k in keys ==> exists i :: 0 <= i < |records| && records[i].identity.key == k)
    && Total(records) == Weight(keys, allocations)
  }

  lemma TotalStep(records: seq<Referenced>, r: Referenced)
    ensures Total(records + [r]) == Total(records) + r.identity.bytes
  {
    assert (records + [r])[..|records|] == records;
  }

  lemma RecordedStep(records: seq<Referenced>, keys: set<Key>, roles: Roles, allocations: seq<Allocation>,
                     contents: Contents, r: Referenced)
    requires Recorded(records, keys, roles, allocations, contents) && Numbered(allocations)
    requires r.identity.key !in keys && IsRecord(r, roles, allocations, contents)
    ensures Recorded(records + [r], keys + {r.identity.key}, roles, allocations, contents)
  {
    var longer, k := records + [r], r.identity.key;
    assert longer[|records|].identity.key == k;
    forall x | x in keys + {k}
      ensures exists i :: 0 <= i < |longer| && longer[i].identity.key == x
    {
      if x in keys {
        var i :| 0 <= i < |records| && records[i].identity.key == x;
        assert longer[i].identity.key == x;
      }
    }
    TotalStep(records, r);
    WeightWithout(keys + {k}, allocations, k);
    assert keys + {k} - {k} == keys;
  }

  ghost predicate Readable(keys: set<Key>, allocations: seq<Allocation>, contents: Contents) {
    forall k :: k in keys && IsKey(allocations, k) ==> contents(At(allocations, k)).Some?
  }

  /** The loop over the referenced allocations; it stops at the first that cannot be hashed. */
  method RecordAll(roles: Roles, allocations: seq<Allocation>, contents: Contents) returns (r: Option<seq<Referenced>>)
    requires Numbered(allocations) && forall k :: k in roles ==> IsKey(allocations, k)
    ensures r.Some? <==> Readable(roles.Keys, allocations, contents)
    ensures r.Some? ==> Recorded(r.value, roles.Keys, roles, allocations, contents)
  {
    var records: seq<Referenced> := [];
    var left := roles.Keys;
    ghost var done: set<Key> := {};
    WeightOfNone(allocations);
    while left != {}
      invariant left + done == roles.Keys && left !! done
      invariant Recorded(records, done, roles, allocations, contents)
      invariant Readable(done, allocations, contents)
      decreases left
    {
      var k :| k in left;
      var a := At(allocations, k);
      var bytes := contents(a);
      if bytes.None? {
        return None;
      }
      var record := RecordOf(a, roles[k], bytes.value);
      RecordedStep(records, done, roles, allocations, contents, record);
      records := records + [record];
      left := left - {k};
      done := done + {k};
    }
    assert done == roles.Keys;
    r := Some(records);
  }
}
