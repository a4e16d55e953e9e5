/** Bytes and the fixed-width integers packed from them. */
module Bytes {
  newtype byte = x: int | 0 <= x < 256

  /** 256 to the power w: the number of values a w-byte field can hold. */
  function Span(w: nat): (n: nat)
    ensures n >= 1
  {
    if w == 0 then 1 else 256 * Span(w - 1)
  }

  /** The value of a big-endian field, `int.from_bytes(.., "big")`. */
  function BigEndian(bs: seq<byte>): (n: nat)
    ensures n < Span(|bs|)
  {
    if bs == [] then 0
    else 256 * BigEndian(bs[..|bs| - 1]) + bs[|bs| - 1] as nat
  }

  /** The w-byte big-endian field holding n. */
  function Pack(n: nat, w: nat): (bs: seq<byte>)
    requires n < Span(w)
    ensures |bs| == w && BigEndian(bs) == n
  {
    if w == 0 then [] else Pack(n / 256, w - 1) + [(n % 256) as byte]
  }

  lemma {:induction false} PackInvertsBigEndian(bs: seq<byte>)
    ensures Pack(BigEndian(bs), |bs|) == bs
  {
    if bs != [] {
      var init := bs[..|bs| - 1];
      PackInvertsBigEndian(init);
      assert BigEndian(bs) / 256 == BigEndian(init);
      assert bs == init + [bs[|bs| - 1]];
    }
  }

  /** Two fields of one width hold the same number only if they are the same bytes. */
  lemma BigEndianInjective(a: seq<byte>, b: seq<byte>)
    requires |a| == |b| && BigEndian(a) == BigEndian(b)
    ensures a == b
  {
    PackInvertsBigEndian(a);
    PackInvertsBigEndian(b);
  }

  /** The value of a little-endian field, as `struct.unpack("<..")` reads it. */
  function LittleEndian(bs: seq<byte>): (n: nat)
    ensures n < Span(|bs|)
  {
    if bs == [] then 0 else bs[0] as nat + 256 * LittleEndian(bs[1..])
  }

  /** The w-byte little-endian field holding n. */
  function PackLittle(n: nat, w: nat): (bs: seq<byte>)
    requires n < Span(w)
    ensures |bs| == w && LittleEndian(bs) == n
  {
    if w == 0 then []
    else
      var bs := [(n % 256) as byte] + PackLittle(n / 256, w - 1);
      assert bs[1..] == PackLittle(n / 256, w - 1);
      bs
  }

  lemma {:induction false} PackLittleInvertsLittleEndian(bs: seq<byte>)
    ensures PackLittle(LittleEndian(bs), |bs|) == bs
  {
    if bs != [] {
      PackLittleInvertsLittleEndian(bs[1..]);
      assert LittleEndian(bs) / 256 == LittleEndian(bs[1..]);
      assert bs == [bs[0]] + bs[1..];
    }
  }

  /** The big-endian field of a record. */
  function BigNumber(p: seq<byte>, offset: nat, width: nat): (n: nat)
    requires offset + width <= |p|
    ensures n < Span(width)
  {
    BigEndian(p[offset..offset + width])
  }

  /** The little-endian field of a record. */
  function LittleNumber(p: seq<byte>, offset: nat, width: nat): (n: nat)
    requires offset + width <= |p|
    ensures n < Span(width)
  {
    LittleEndian(p[offset..offset + width])
  }

  lemma Spans()
    ensures Span(2) == 0x1_0000 && Span(4) == 0x1_0000_0000 && Span(8) == 0x1_0000_0000_0000_0000
  {
    assert Span(2) == 256 * (256 * Span(0));
    assert Span(4) == 256 * (256 * Span(2));
    assert Span(6) == 256 * (256 * Span(4));
    assert Span(8) == 256 * (256 * Span(6));
  }

  function Zeros(n: nat): (bs: seq<byte>)
    ensures |bs| == n && forall i :: 0 <= i < n ==> bs[i] == 0
  {
    seq(n, _ => 0)
  }

  // ----- Fixed layouts -----

  /** The concatenation of the parts of a record. */
  function Join(parts: seq<seq<byte>>): (bs: seq<byte>) {
    if parts == [] then [] else Join(parts[..|parts| - 1]) + parts[|parts| - 1]
  }

  /** Where part k starts. */
  function Offset(parts: seq<seq<byte>>, k: nat): nat
    requires k <= |parts|
  {
    if k == 0 then 0 else Offset(parts, k - 1) + |parts[k - 1]|
  }

  lemma {:induction false} OffsetOfPrefix(parts: seq<seq<byte>>, n: nat, k: nat)
    requires k <= n <= |parts|
    ensures Offset(parts[..n], k) == Offset(parts, k)
  {
    if k > 0 {
      OffsetOfPrefix(parts, n, k - 1);
    }
  }

  /** Every part is found again at its offset. */
  lemma {:induction false} PartOfJoin(parts: seq<seq<byte>>, k: nat)
    requires k < |parts|
    ensures Offset(parts, k) + |parts[k]| <= |Join(parts)| == Offset(parts, |parts|)
    ensures Join(parts)[Offset(parts, k)..Offset(parts, k) + |parts[k]|] == parts[k]
  {
    var n := |parts| - 1;
    var init := parts[..n];
    JoinLength(init);
    OffsetOfPrefix(parts, n, n);
    if k < n {
      PartOfJoin(init, k);
      OffsetOfPrefix(parts, n, k);
      SliceOfSum(Join(init), parts[n], Offset(parts, k), Offset(parts, k) + |parts[k]|);
    }
  }

  lemma SliceOfSum(a: seq<byte>, b: seq<byte>, low: nat, high: nat)
    requires low <= high <= |a|
    ensures (a + b)[low..high] == a[low..high]
  {
  }

  /** The string holds the parts, one after the other, from the given place on. */
  predicate HoldsAt(bs: seq<byte>, start: nat, parts: seq<seq<byte>>) {
    start + |Join(parts)| <= |bs| && bs[start..start + |Join(parts)|] == Join(parts)
  }

  lemma SliceOfHeld(bs: seq<byte>, start: nat, held: seq<byte>, low: nat, high: nat)
    requires start + |held| <= |bs| && bs[start..start + |held|] == held
    requires start <= low <= high <= start + |held|
    ensures bs[low..high] == held[low - start..high - start]
  {
    var outer, inner := bs[low..high], held[low - start..high - start];
    forall i | 0 <= i < |inner|
      ensures outer[i] == inner[i]
    {
      assert inner[i] == bs[start..start + |held|][low - start + i];
    }
  }

  /** Then part k is a slice of the string. */
  lemma PartInside(bs: seq<byte>, start: nat, parts: seq<seq<byte>>, k: nat, low: nat, high: nat)
    requires HoldsAt(bs, start, parts) && k < |parts|
    requires low == start + Offset(parts, k) && high == low + |parts[k]|
    ensures high <= |bs| && bs[low..high] == parts[k]
  {
    PartOfJoin(parts, k);
    SliceOfHeld(bs, start, Join(parts), low, high);
  }

  lemma {:induction false} JoinLength(parts: seq<seq<byte>>)
    ensures |Join(parts)| == Offset(parts, |parts|)
  {
    if parts != [] {
      var n := |parts| - 1;
      JoinLength(parts[..n]);
      OffsetOfPrefix(parts, n, n);
    }
  }

  /** Cut points in order, within a string of the given length. */
  predicate AreCuts(cuts: seq<nat>, length: nat) {
    0 < |cuts| && forall j, k :: 0 <= j <= k < |cuts| ==> cuts[j] <= cuts[k] <= length
  }

  /** The pieces between consecutive cut points. */
  function Slices(bs: seq<byte>, cuts: seq<nat>): (parts: seq<seq<byte>>)
    requires AreCuts(cuts, |bs|)
    ensures |parts| == |cuts| - 1
    ensures forall k :: 0 <= k < |parts| ==> parts[k] == bs[cuts[k]..cuts[k + 1]]
  {
    seq(|cuts| - 1, k requires 0 <= k < |cuts| - 1 => bs[cuts[k]..cuts[k + 1]])
  }

  lemma SlicesMeet(bs: seq<byte>, i: nat, j: nat, k: nat)
    requires i <= j <= k <= |bs|
    ensures bs[i..j] + bs[j..k] == bs[i..k]
  {
  }

  lemma SlicesOfInit(bs: seq<byte>, cuts: seq<nat>, n: nat)
    requires AreCuts(cuts, |bs|) && 0 < n < |cuts|
    ensures AreCuts(cuts[..n], |bs|) && Slices(bs, cuts)[..n - 1] == Slices(bs, cuts[..n])
  {
  }

  lemma {:induction false} JoinOfSlices(bs: seq<byte>, cuts: seq<nat>)
    requires AreCuts(cuts, |bs|)
    ensures cuts[0] <= cuts[|cuts| - 1]
    ensures Join(Slices(bs, cuts)) == bs[cuts[0]..cuts[|cuts| - 1]]
  {
    if |cuts| > 1 {
      var n := |cuts| - 1;
      SlicesOfInit(bs, cuts, n);
      JoinOfSlices(bs, cuts[..n]);
      SlicesMeet(bs, cuts[0], cuts[n - 1], cuts[n]);
    }
  }
}
