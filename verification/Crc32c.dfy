/**
 The two CRC-32C implementations of the host tools: the bit-driven one of the
 AQL failure capsule and the table-driven one of the tape decoder.  The
 polynomial is the reflected form of section 12.1 of RFC 3720.

 A 32-bit word is its 32 bits, least significant first, so `v >> 1` drops the
 first bit and `^` works bit by bit.
 */
module Crc32c {
  import opened Bytes

  type Word = w: seq<bool> | |w| == 32 witness [false, false, false, false, false, false, false, false, false, false, false, false, false, false, false, false,
                                                false, false, false, false, false, false, false, false, false, false, false, false, false, false, false, false]

  function Pow2(n: nat): (p: nat)
    ensures p >= 1
  {
    if n == 0 then 1 else 2 * Pow2(n - 1)
  }

  function ToBits(n: nat, width: nat): (bits: seq<bool>)
    requires n < Pow2(width)
    ensures |bits| == width && FromBits(bits) == n
  {
    if width == 0 then [] else [n % 2 == 1] + ToBits(n / 2, width - 1)
  }

  function FromBits(bits: seq<bool>): (n: nat)
    ensures n < Pow2(|bits|)
  {
    if bits == [] then 0 else (if bits[0] then 1 else 0) + 2 * FromBits(bits[1..])
  }

  lemma {:induction false} BitsOfNumber(bits: seq<bool>)
    ensures ToBits(FromBits(bits), |bits|) == bits
  {
    if bits != [] {
      BitsOfNumber(bits[1..]);
      assert FromBits(bits) / 2 == FromBits(bits[1..]);
      assert bits == [bits[0]] + bits[1..];
    }
  }

  /** Two words are equal when they are the same number. */
  lemma SameNumberSameBits(a: seq<bool>, b: seq<bool>)
    requires |a| == |b| && FromBits(a) == FromBits(b)
    ensures a == b
  {
    BitsOfNumber(a);
    BitsOfNumber(b);
  }

  lemma {:induction false} TopBit(n: nat, width: nat)
    requires width > 0 && Pow2(width - 1) <= n < Pow2(width)
    ensures ToBits(n, width)[width - 1]
  {
    if width > 1 {
      TopBit(n / 2, width - 1);
    }
  }

  function Zero(): Word {
    seq(32, _ => false)
  }

  function Ones(): Word {
    seq(32, _ => true)
  }

  function Xor(a: Word, b: Word): (c: Word)
    ensures forall i :: 0 <= i < 32 ==> c[i] == (a[i] != b[i])
  {
    seq(32, i requires 0 <= i < 32 => a[i] != b[i])
  }

  lemma SameWord(a: Word, b: Word)
    requires forall i :: 0 <= i < 32 ==> a[i] == b[i]
    ensures a == b
  {
  }

  /** Exchanging the middle two of four. */
  lemma XorExchange(a: Word, b: Word, c: Word, d: Word)
    ensures Xor(Xor(a, b), Xor(c, d)) == Xor(Xor(a, c), Xor(b, d))
  {
    SameWord(Xor(Xor(a, b), Xor(c, d)), Xor(Xor(a, c), Xor(b, d)));
  }

  lemma XorCancels(a: Word, b: Word)
    ensures Xor(a, Xor(b, b)) == a && Xor(b, b) == Zero()
  {
    SameWord(Xor(b, b), Zero());
    SameWord(Xor(a, Xor(b, b)), a);
  }

  /** A byte in the low eight bits of a word. */
  function Widen(b: byte): Word {
    assert Pow2(8) == 256;
    ToBits(b as nat, 8) + seq(24, _ => false)
  }

  /** `v & 0xFF` as a list index. */
  function LowByte(v: Word): byte {
    assert Pow2(8) == 256;
    FromBits(v[..8]) as byte
  }

  /** `v >> 1` and `v >> 8`. */
  function Halve(v: Word): Word {
    v[1..] + [false]
  }

  function DropByte(v: Word): Word {
    v[8..] + seq(8, _ => false)
  }

  // ----- Any step of a shift register -----

  type Step = Word -> Word

  function Iterate(step: Step, v: Word, n: nat): Word {
    if n == 0 then v else step(Iterate(step, v, n - 1))
  }

  /** The register after a byte string, before the final complement. */
  function Register(step: Step, s: seq<byte>): Word {
    if s == [] then Ones()
    else Iterate(step, Xor(Register(step, s[..|s| - 1]), Widen(s[|s| - 1])), 8)
  }

  /** Linear over xor, no nonzero word is lost, and a clear low bit is shifted out. */
  ghost predicate IsRegisterStep(step: Step) {
    && (forall a, b {:trigger step(Xor(a, b))} :: step(Xor(a, b)) == Xor(step(a), step(b)))
    && (forall v {:trigger step(v)} :: v != Zero() ==> step(v) != Zero())
    && (forall v: Word {:trigger step(v)} :: !v[0] ==> step(v) == Halve(v))
  }

  lemma {:induction false} IterateLinear(step: Step, a: Word, b: Word, n: nat)
    requires IsRegisterStep(step)
    ensures Iterate(step, Xor(a, b), n) == Xor(Iterate(step, a, n), Iterate(step, b, n))
  {
    if n > 0 {
      IterateLinear(step, a, b, n - 1);
    }
  }

  lemma {:induction false} IterateNonzero(step: Step, v: Word, n: nat)
    requires IsRegisterStep(step) && v != Zero()
    ensures Iterate(step, v, n) != Zero()
  {
    if n > 0 {
      IterateNonzero(step, v, n - 1);
    }
  }

  lemma {:induction false} IterateComposes(step: Step, v: Word, m: nat, n: nat)
    ensures Iterate(step, Iterate(step, v, m), n) == Iterate(step, v, m + n)
  {
    if n > 0 {
      IterateComposes(step, v, m, n - 1);
    }
  }

  /** `v >> n`. */
  function MoveDown(v: Word, n: nat): (w: Word)
    requires n <= 32
    ensures forall i :: 0 <= i < 32 ==> w[i] == (i + n < 32 && v[i + n])
  {
    v[n..] + seq(n, _ => false)
  }

  /** While the low bits are clear, the steps only move the word down. */
  lemma {:induction false} IterateClearBits(step: Step, v: Word, n: nat)
    requires IsRegisterStep(step)
    requires n <= 32 && forall i :: 0 <= i < n ==> !v[i]
    ensures Iterate(step, v, n) == MoveDown(v, n)
  {
    if n > 0 {
      IterateClearBits(step, v, n - 1);
      SameWord(Halve(MoveDown(v, n - 1)), MoveDown(v, n));
    } else {
      SameWord(v, MoveDown(v, 0));
    }
  }

  lemma RegisterGrows(step: Step, s: seq<byte>, b: byte)
    ensures Register(step, s + [b]) == Iterate(step, Xor(Register(step, s), Widen(b)), 8)
  {
    assert (s + [b])[..|s|] == s;
  }

  lemma RegisterPrefix(step: Step, s: seq<byte>, i: nat)
    requires i < |s|
    ensures Register(step, s[..i + 1]) == Iterate(step, Xor(Register(step, s[..i]), Widen(s[i])), 8)
  {
    assert s[..i + 1] == s[..i] + [s[i]];
    RegisterGrows(step, s[..i], s[i]);
  }

  lemma WidenLow(v: Word)
    ensures Widen(LowByte(v)) == v[..8] + seq(24, _ => false)
  {
    BitsOfNumber(v[..8]);
  }

  /** The identity behind the table: one lookup and a byte shift make eight steps. */
  lemma TableStep(step: Step, v: Word)
    requires IsRegisterStep(step)
    ensures Iterate(step, v, 8) == Xor(Iterate(step, Widen(LowByte(v)), 8), DropByte(v))
  {
    var low := Widen(LowByte(v));
    WidenLow(v);
    var high: Word := seq(8, _ => false) + v[8..];
    SameWord(v, Xor(low, high));
    IterateLinear(step, low, high, 8);
    IterateClearBits(step, high, 8);
    SameWord(MoveDown(high, 8), DropByte(v));
  }

  // ----- CRC-32C -----

  function Polynomial(): (p: Word)
    ensures p[31]
  {
    assert Pow2(8) == 0x100;
    assert Pow2(16) == 0x1_0000;
    assert Pow2(24) == 0x100_0000;
    assert Pow2(31) == 0x8000_0000;
    assert Pow2(32) == 0x1_0000_0000;
    TopBit(0x82F63B78, 32);
    ToBits(0x82F63B78, 32)
  }

  /** One step of the reflected register with feedback p. */
  function ShiftBy(p: Word, v: Word): Word {
    Xor(Halve(v), if v[0] then p else Zero())
  }

  function ShiftStep(p: Word): Step {
    v => ShiftBy(p, v)
  }

  /** The checksum that both implementations compute. */
  function Crc(s: seq<byte>): Word {
    Xor(Register(ShiftStep(Polynomial()), s), Ones())
  }

  lemma ShiftLinear(p: Word, a: Word, b: Word)
    ensures ShiftBy(p, Xor(a, b)) == Xor(ShiftBy(p, a), ShiftBy(p, b))
  {
    SameWord(ShiftBy(p, Xor(a, b)), Xor(ShiftBy(p, a), ShiftBy(p, b)));
  }

  lemma ShiftNonzero(p: Word, v: Word)
    requires p[31] && v != Zero()
    ensures ShiftBy(p, v) != Zero()
  {
    if v[0] {
      assert ShiftBy(p, v)[31];
    } else {
      var i :| 0 < i < 32 && v[i];
      assert ShiftBy(p, v)[i - 1];
    }
  }

  lemma ShiftClear(p: Word, v: Word)
    requires !v[0]
    ensures ShiftBy(p, v) == Halve(v)
  {
    SameWord(ShiftBy(p, v), Halve(v));
  }

  lemma ShiftIsRegisterStep(p: Word)
    requires p[31]
    ensures IsRegisterStep(ShiftStep(p))
  {
    var step := ShiftStep(p);
    forall a: Word, b: Word
      ensures step(Xor(a, b)) == Xor(step(a), step(b))
    {
      ShiftLinear(p, a, b);
    }
    forall v: Word | v != Zero()
      ensures step(v) != Zero()
    {
      ShiftNonzero(p, v);
    }
    forall v: Word | !v[0]
      ensures step(v) == Halve(v)
    {
      ShiftClear(p, v);
    }
  }

  // ----- The two implementations -----

  /** The inner loop of both implementations: eight steps of the register. */
  method EightSteps(p: Word, start: Word) returns (value: Word)
    ensures value == Iterate(ShiftStep(p), start, 8)
  {
    value := start;
    for bit := 0 to 8
      invariant value == Iterate(ShiftStep(p), start, bit)
    {
      value := Xor(Halve(value), if value[0] then p else Zero());
    }
  }

  /** `crc32c` of the failure capsule: xor a byte in, then eight steps. */
  method BitwiseCrc(payload: seq<byte>) returns (crc: Word)
    ensures crc == Crc(payload)
  {
    var p := Polynomial();
    var value := BitwiseRegister(p, payload);
    crc := Xor(value, Ones());
  }

  method BitwiseRegister(p: Word, payload: seq<byte>) returns (value: Word)
    ensures value == Register(ShiftStep(p), payload)
  {
    value := Ones();
    for i := 0 to |payload|
      invariant value == Register(ShiftStep(p), payload[..i])
    {
      RegisterPrefix(ShiftStep(p), payload, i);
      value := EightSteps(p, Xor(value, Widen(payload[i])));
    }
    assert payload[..|payload|] == payload;
  }

  ghost predicate IsTable(p: Word, table: seq<Word>) {
    |table| == 256 && forall i :: 0 <= i < 256 ==> table[i] == Iterate(ShiftStep(p), Widen(i as byte), 8)
  }

  /** `_crc32c_table`. */
  method BuildTable(p: Word) returns (table: seq<Word>)
    ensures IsTable(p, table)
  {
    table := [];
    for index := 0 to 256
      invariant |table| == index
      invariant forall i :: 0 <= i < index ==> table[i] == Iterate(ShiftStep(p), Widen(i as byte), 8)
    {
      var value := EightSteps(p, Widen(index as byte));
      table := table + [value];
    }
  }

  lemma DropWidened(value: Word, b: byte)
    ensures DropByte(Xor(value, Widen(b))) == DropByte(value)
  {
    SameWord(DropByte(Xor(value, Widen(b))), DropByte(value));
  }

  lemma TableLookup(p: Word, table: seq<Word>, value: Word, b: byte)
    requires p[31] && IsTable(p, table)
    ensures Xor(table[LowByte(Xor(value, Widen(b))) as int], DropByte(value))
         == Iterate(ShiftStep(p), Xor(value, Widen(b)), 8)
  {
    var mixed := Xor(value, Widen(b));
    ShiftIsRegisterStep(p);
    TableStep(ShiftStep(p), mixed);
    DropWidened(value, b);
    var index := LowByte(mixed) as int;
    assert table[index] == Iterate(ShiftStep(p), Widen(index as byte), 8);
  }

  method TableRegister(p: Word, table: seq<Word>, data: seq<byte>) returns (value: Word)
    requires p[31] && IsTable(p, table)
    ensures value == Register(ShiftStep(p), data)
  {
    value := Ones();
    for i := 0 to |data|
      invariant value == Register(ShiftStep(p), data[..i])
    {
      TableLookup(p, table, value, data[i]);
      RegisterPrefix(ShiftStep(p), data, i);
      value := Xor(table[LowByte(Xor(value, Widen(data[i]))) as int], DropByte(value));
    }
    assert data[..|data|] == data;
  }

  /** `crc32c` of the tape decoder: it computes the checksum the bitwise one does. */
  method TableCrc(table: seq<Word>, data: seq<byte>) returns (crc: Word)
    requires IsTable(Polynomial(), table)
    ensures crc == Crc(data)
  {
    var p := Polynomial();
    var value := TableRegister(p, table, data);
    crc := Xor(value, Ones());
  }

  // ----- Burst detection -----

  /** What two equally long strings leave different in the register. */
  function Difference(step: Step, s: seq<byte>, t: seq<byte>): Word {
    Xor(Register(step, s), Register(step, t))
  }

  lemma DifferenceStep(step: Step, s: seq<byte>, t: seq<byte>, a: byte, b: byte)
    requires IsRegisterStep(step)
    ensures Difference(step, s + [a], t + [b])
         == Iterate(step, Xor(Difference(step, s, t), Xor(Widen(a), Widen(b))), 8)
  {
    RegisterGrows(step, s, a);
    RegisterGrows(step, t, b);
    var x, y := Register(step, s), Register(step, t);
    IterateLinear(step, Xor(x, Widen(a)), Xor(y, Widen(b)), 8);
    XorExchange(x, Widen(a), y, Widen(b));
  }

  /** Equal bytes after a difference never cancel it. */
  lemma {:induction false} DifferenceSurvives(step: Step, s: seq<byte>, t: seq<byte>, tail: seq<byte>)
    requires IsRegisterStep(step) && Difference(step, s, t) != Zero()
    ensures Difference(step, s + tail, t + tail) != Zero()
  {
    if tail == [] {
      assert s + tail == s && t + tail == t;
    } else {
      var init, last := tail[..|tail| - 1], tail[|tail| - 1];
      DifferenceSurvives(step, s, t, init);
      assert s + tail == (s + init) + [last] && t + tail == (t + init) + [last];
      EqualByteKeeps(step, s + init, t + init, last);
    }
  }

  lemma EqualByteKeeps(step: Step, s: seq<byte>, t: seq<byte>, b: byte)
    requires IsRegisterStep(step) && Difference(step, s, t) != Zero()
    ensures Difference(step, s + [b], t + [b]) != Zero()
  {
    DifferenceStep(step, s, t, b, b);
    XorCancels(Difference(step, s, t), Widen(b));
    IterateNonzero(step, Difference(step, s, t), 8);
  }

  /** The bits in which two strings of at most four bytes differ, placed as the register takes them. */
  function Burst(a: seq<byte>, b: seq<byte>): (w: Word)
    requires |a| == |b| <= 4
    ensures forall i :: 8 * |a| <= i < 32 ==> !w[i]
  {
    if a == [] then Zero()
    else
      Xor(Burst(a[..|a| - 1], b[..|a| - 1]),
          MoveUp(Xor(Widen(a[|a| - 1]), Widen(b[|a| - 1])), 8 * (|a| - 1)))
  }

  /** `v << n`. */
  function MoveUp(v: Word, n: nat): (w: Word)
    requires n <= 24
    ensures forall i :: 0 <= i < n ==> !w[i]
    ensures forall i :: n <= i < 32 ==> w[i] == v[i - n]
  {
    seq(n, _ => false) + v[..32 - n]
  }

  /** A byte moved up n bits comes back after n steps. */
  lemma MovedBack(step: Step, e: Word, n: nat)
    requires IsRegisterStep(step) && n <= 24 && forall i :: 8 <= i < 32 ==> !e[i]
    ensures Iterate(step, MoveUp(e, n), n) == e
  {
    IterateClearBits(step, MoveUp(e, n), n);
    SameWord(MoveDown(MoveUp(e, n), n), e);
  }

  lemma LowBurst(a: byte, b: byte)
    ensures forall i :: 8 <= i < 32 ==> !Xor(Widen(a), Widen(b))[i]
  {
  }

  lemma JoinedShift(step: Step, w: Word, e: Word, n: nat)
    requires IsRegisterStep(step) && n <= 24 && forall i :: 8 <= i < 32 ==> !e[i]
    ensures Iterate(step, Xor(w, MoveUp(e, n)), n) == Xor(Iterate(step, w, n), e)
  {
    MovedBack(step, e, n);
    IterateLinear(step, w, MoveUp(e, n), n);
  }

  lemma BurstStep(step: Step, w: Word, e: Word, n: nat, more: nat)
    requires IsRegisterStep(step) && n <= 24 && forall i :: 8 <= i < 32 ==> !e[i]
    ensures Iterate(step, Xor(w, MoveUp(e, n)), n + more) == Iterate(step, Xor(Iterate(step, w, n), e), more)
  {
    IterateComposes(step, Xor(w, MoveUp(e, n)), n, more);
    JoinedShift(step, w, e, n);
  }

  lemma BurstGrows(step: Step, a: seq<byte>, b: seq<byte>, k: nat)
    requires IsRegisterStep(step) && |a| == |b| == k + 1 <= 4
    ensures Iterate(step, Burst(a, b), 8 * (k + 1))
         == Iterate(step, Xor(Iterate(step, Burst(a[..k], b[..k]), 8 * k), Xor(Widen(a[k]), Widen(b[k]))), 8)
  {
    LowBurst(a[k], b[k]);
    BurstStep(step, Burst(a[..k], b[..k]), Xor(Widen(a[k]), Widen(b[k])), 8 * k, 8);
  }

  /** One more byte on both sides of a burst. */
  lemma BurstExtends(step: Step, s: seq<byte>, t: seq<byte>, a: seq<byte>, b: seq<byte>, k: nat)
    requires IsRegisterStep(step) && |a| == |b| == k + 1 <= 4
    requires Difference(step, s, t) == Iterate(step, Burst(a[..k], b[..k]), 8 * k)
    ensures Difference(step, s + [a[k]], t + [b[k]]) == Iterate(step, Burst(a, b), 8 * (k + 1))
  {
    DifferenceStep(step, s, t, a[k], b[k]);
    BurstGrows(step, a, b, k);
  }

  lemma Appended(p: seq<byte>, a: seq<byte>, k: nat)
    requires |a| == k + 1
    ensures p + a == (p + a[..k]) + [a[k]]
  {
    assert a == a[..k] + [a[k]];
  }

  lemma {:induction false} DifferenceIsBurst(step: Step, p: seq<byte>, a: seq<byte>, b: seq<byte>)
    requires IsRegisterStep(step) && |a| == |b| <= 4
    ensures Difference(step, p + a, p + b) == Iterate(step, Burst(a, b), 8 * |a|)
  {
    if a == [] {
      assert p + a == p && p + b == p;
      XorCancels(Zero(), Register(step, p));
    } else {
      var k := |a| - 1;
      DifferenceIsBurst(step, p, a[..k], b[..k]);
      BurstExtends(step, p + a[..k], p + b[..k], a, b, k);
      Appended(p, a, k);
      Appended(p, b, k);
    }
  }

  lemma WidenInjective(a: byte, b: byte) returns (i: nat)
    requires a != b
    ensures i < 8 && Widen(a)[i] != Widen(b)[i]
  {
    assert Pow2(8) == 256;
    var x, y := ToBits(a as nat, 8), ToBits(b as nat, 8);
    assert x != y;
    i :| 0 <= i < 8 && x[i] != y[i];
  }

  lemma {:induction false} BurstNonzero(a: seq<byte>, b: seq<byte>) returns (i: nat)
    requires |a| == |b| <= 4 && a != b
    ensures i < 32 && Burst(a, b)[i]
  {
    var k := |a| - 1;
    if a[k] != b[k] {
      i := WidenInjective(a[k], b[k]);
      i := 8 * k + i;
    } else {
      assert a == a[..k] + [a[k]] && b == b[..k] + [b[k]];
      i := BurstNonzero(a[..k], b[..k]);
      XorCancels(Zero(), Widen(a[k]));
    }
  }

  lemma SurvivesComplement(s: Word, t: Word)
    requires Xor(s, t) != Zero()
    ensures Xor(s, Ones()) != Xor(t, Ones())
  {
    if s == t {
      XorCancels(Zero(), s);
    } else {
      var i :| 0 <= i < 32 && s[i] != t[i];
      assert Xor(s, Ones())[i] != Xor(t, Ones())[i];
    }
  }

  /** Changing any of at most four consecutive bytes changes the checksum. */
  lemma BurstDetected(prefix: seq<byte>, a: seq<byte>, b: seq<byte>, suffix: seq<byte>)
    requires |a| == |b| <= 4 && a != b
    ensures Crc(prefix + a + suffix) != Crc(prefix + b + suffix)
  {
    var p := Polynomial();
    var step := ShiftStep(p);
    ShiftIsRegisterStep(p);
    var i := BurstNonzero(a, b);
    DifferenceIsBurst(step, prefix, a, b);
    IterateNonzero(step, Burst(a, b), 8 * |a|);
    DifferenceSurvives(step, prefix + a, prefix + b, suffix);
    SurvivesComplement(Register(step, prefix + a + suffix), Register(step, prefix + b + suffix));
  }
}
