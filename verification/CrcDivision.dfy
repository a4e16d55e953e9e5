/**
 CRC-32C as section 12.1 of RFC 3720 has it: the complement of the remainder of
 a polynomial, that of the message with its first 32 bits complemented.  The
 division is the one on paper, from the highest coefficient down.

 A polynomial over the two-element field is the sequence of its coefficients, the
 one of x^k at index k.
 */
module CrcDivision {
  import opened Bytes
  import opened Crc32c

  /** x^32 + x^28 + ... + x^6 + 1, without its highest term. */
  function Generator(): (g: Word) {
    seq(32, k => k in {28, 27, 26, 25, 23, 22, 20, 19, 18, 14, 13, 11, 10, 9, 8, 6, 0})
  }

  // ----- The generator, reflected -----

  lemma OneBit(q: nat, d: nat, width: nat, n: nat, w: nat)
    requires q < Pow2(width) && d < 2 && n == 2 * q + d && w == width + 1
    ensures n < Pow2(w) && ToBits(n, w) == [d == 1] + ToBits(q, width)
  {
    assert n / 2 == q && n % 2 == d;
  }

  /** The bits of a hexadecimal digit. */
  function Digit(d: nat): seq<bool> {
    [d % 2 == 1, d / 2 % 2 == 1, d / 4 % 2 == 1, d / 8 == 1]
  }

  lemma FourBits(q: nat, d: nat, width: nat)
    requires q < Pow2(width) && d < 16
    ensures 16 * q + d < Pow2(width + 4) && ToBits(16 * q + d, width + 4) == Digit(d) + ToBits(q, width)
  {
    var a, b, c, e := d % 2, d / 2 % 2, d / 4 % 2, d / 8;
    assert d == a + 2 * b + 4 * c + 8 * e;
    FourSteps(q, a, b, c, e, width, 16 * q + d);
  }

  lemma TwoSteps(q: nat, a: nat, b: nat, width: nat, n: nat)
    requires q < Pow2(width) && a < 2 && b < 2 && n == 4 * q + 2 * b + a
    ensures n < Pow2(width + 2) && ToBits(n, width + 2) == [a == 1] + ([b == 1] + ToBits(q, width))
  {
    OneBit(q, b, width, 2 * q + b, width + 1);
    OneBit(2 * q + b, a, width + 1, n, width + 2);
  }

  lemma FourSteps(q: nat, a: nat, b: nat, c: nat, e: nat, width: nat, n: nat)
    requires q < Pow2(width) && a < 2 && b < 2 && c < 2 && e < 2 && n == 16 * q + 8 * e + 4 * c + 2 * b + a
    ensures n < Pow2(width + 4) && ToBits(n, width + 4) == [a == 1, b == 1, c == 1, e == 1] + ToBits(q, width)
  {
    var q2 := 4 * q + 2 * e + c;
    TwoSteps(q, c, e, width, q2);
    TwoSteps(q2, a, b, width + 2, n);
    FourOnes(a == 1, b == 1, c == 1, e == 1, ToBits(q, width));
  }

  lemma FourOnes(a: bool, b: bool, c: bool, d: bool, rest: seq<bool>)
    ensures [a] + ([b] + ([c] + ([d] + rest))) == [a, b, c, d] + rest
  {
  }

  /** A number from its hexadecimal digits, the lowest first, and its bits. */
  function FromDigits(ds: seq<nat>): nat {
    if ds == [] then 0 else ds[0] + 16 * FromDigits(ds[1..])
  }

  function BitsOfDigits(ds: seq<nat>): (bits: seq<bool>)
    ensures |bits| == 4 * |ds|
  {
    if ds == [] then [] else Digit(ds[0]) + BitsOfDigits(ds[1..])
  }

  lemma {:induction false} DigitAt(ds: seq<nat>, j: nat)
    requires j < |ds|
    ensures BitsOfDigits(ds)[4 * j..4 * j + 4] == Digit(ds[j])
  {
    if j > 0 {
      var bits, rest := BitsOfDigits(ds), BitsOfDigits(ds[1..]);
      DigitAt(ds[1..], j - 1);
      assert bits[4 * j..4 * j + 4] == rest[4 * (j - 1)..4 * (j - 1) + 4];
    }
  }

  lemma {:induction false} DigitsGiveBits(ds: seq<nat>)
    requires forall i :: 0 <= i < |ds| ==> ds[i] < 16
    ensures FromDigits(ds) < Pow2(4 * |ds|) && ToBits(FromDigits(ds), 4 * |ds|) == BitsOfDigits(ds)
  {
    if ds != [] {
      var rest := ds[1..];
      DigitsGiveBits(rest);
      var width := 4 * |rest|;
      FourBits(FromDigits(rest), ds[0], width);
      assert 4 * |ds| == width + 4;
    }
  }

  lemma PolynomialDigits(ds: seq<nat>)
    requires ds == [8, 7, 11, 3, 6, 15, 2, 8]
    ensures Polynomial() == BitsOfDigits(ds)
  {
    DigitsGiveBits(ds);
    assert FromDigits(ds[7..]) == 0x8;
    assert FromDigits(ds[6..]) == 0x82;
    assert FromDigits(ds[5..]) == 0x82F;
    assert FromDigits(ds[4..]) == 0x82F6;
    assert FromDigits(ds[3..]) == 0x82F63;
    assert FromDigits(ds[2..]) == 0x82F63B;
    assert FromDigits(ds[1..]) == 0x82F63B7;
    assert FromDigits(ds) == 0x82F63B78;
  }

  // ----- Division -----

  /** The coefficients below the highest one, after the generator has been subtracted there if needed. */
  function Reduced(p: seq<bool>): (q: seq<bool>)
    requires |p| > 32
    ensures |q| == |p| - 1
  {
    var n := |p| - 1;
    seq(n, k requires 0 <= k < n => p[k] != (p[n] && k >= n - 32 && Generator()[k - (n - 32)]))
  }

  function Remainder(p: seq<bool>): (r: Word)
    requires |p| >= 32
    decreases |p|
  {
    if |p| == 32 then p else Remainder(Reduced(p))
  }

  /** The message, its first bit highest, times x^32, with the 32 highest coefficients complemented. */
  function Dividend(bits: seq<bool>): (p: seq<bool>)
    ensures |p| == |bits| + 32
  {
    var n := |bits|;
    seq(n + 32, k requires 0 <= k < n + 32 => (k >= 32 && bits[n - 1 - (k - 32)]) != (k >= n))
  }

  /** The bits of the bytes, each from its lowest bit up. */
  function BitsOf(s: seq<byte>): seq<bool> {
    if s == [] then []
    else
      assert Pow2(8) == 256;
      BitsOf(s[..|s| - 1]) + ToBits(s[|s| - 1] as nat, 8)
  }

  /** Multiplying by x before or after a division makes no difference. */
  lemma {:induction false} RemainderOfShifted(b: bool, p: seq<bool>)
    requires |p| >= 32
    ensures Remainder([b] + p) == Remainder([b] + Remainder(p))
    decreases |p|
  {
    if |p| > 32 {
      assert Reduced([b] + p) == [b] + Reduced(p);
      RemainderOfShifted(b, Reduced(p));
    }
  }

  function FlipAt32(p: seq<bool>, m: bool): (q: seq<bool>)
    requires |p| > 32
    ensures |q| == |p|
  {
    p[32 := p[32] != m]
  }

  function Times(m: bool, w: Word): (v: Word)
    ensures forall i :: 0 <= i < 32 ==> v[i] == (m && w[i])
  {
    seq(32, i requires 0 <= i < 32 => m && w[i])
  }

  /** Adding x^32 adds the generator to the remainder. */
  lemma {:induction false} RemainderOfFlipped(p: seq<bool>, m: bool)
    requires |p| > 32
    ensures Remainder(FlipAt32(p, m)) == Xor(Remainder(p), Times(m, Generator()))
    decreases |p|
  {
    if |p| == 33 {
      SameWord(Reduced(FlipAt32(p, m)), Xor(Reduced(p), Times(m, Generator())));
    } else {
      assert Reduced(FlipAt32(p, m)) == FlipAt32(Reduced(p), m);
      RemainderOfFlipped(Reduced(p), m);
    }
  }

  lemma DividendGrows(bits: seq<bool>, m: bool)
    ensures Dividend(bits + [m]) == FlipAt32([false] + Dividend(bits), m)
  {
  }

  lemma RemainderGrows(bits: seq<bool>, m: bool)
    ensures Remainder(Dividend(bits + [m]))
         == Xor(Reduced([false] + Remainder(Dividend(bits))), Times(m, Generator()))
  {
    var d := Dividend(bits);
    DividendGrows(bits, m);
    RemainderOfFlipped([false] + d, m);
    RemainderOfShifted(false, d);
  }

  // ----- The register, bit by bit -----

  function Reflected(w: Word): (v: Word)
    ensures forall i :: 0 <= i < 32 ==> v[i] == w[31 - i]
  {
    seq(32, i requires 0 <= i < 32 => w[31 - i])
  }

  /** A word with at most its bit n set. */
  function BitAt(n: nat, m: bool): (w: Word)
    requires n < 32
    ensures forall i :: 0 <= i < 32 ==> w[i] == (i == n && m)
  {
    seq(32, i => i == n && m)
  }

  function Feed(step: Step, v: Word, bits: seq<bool>): Word {
    if bits == [] then v else step(Xor(Feed(step, v, bits[..|bits| - 1]), BitAt(0, bits[|bits| - 1])))
  }

  /** The feedback word p is the generator, reflected. */
  predicate IsReflected(p: Word) {
    forall k :: 0 <= k < 32 ==> p[31 - k] == Generator()[k]
  }

  lemma PolynomialIsReflected()
    ensures IsReflected(Polynomial())
  {
    var ds: seq<nat> := [8, 7, 11, 3, 6, 15, 2, 8];
    PolynomialDigits(ds);
    DigitsAreReflected(ds, Polynomial());
  }

  /** The four bits of digit j are four coefficients of the generator. */
  predicate Coefficients(p: Word, j: nat)
    requires j < 8
  {
    && p[4 * j] == Generator()[31 - 4 * j] && p[4 * j + 1] == Generator()[30 - 4 * j]
    && p[4 * j + 2] == Generator()[29 - 4 * j] && p[4 * j + 3] == Generator()[28 - 4 * j]
  }

  /** The digits of the polynomial, by their places. */
  lemma DigitFits(p: Word, j: nat, d: nat)
    requires j < 8 && p[4 * j..4 * j + 4] == Digit(d)
    requires (j, d) in {(0, 8), (1, 7), (2, 11), (3, 3), (4, 6), (5, 15), (6, 2), (7, 8)}
    ensures Coefficients(p, j)
  {
    var block := p[4 * j..4 * j + 4];
    assert block[0] == p[4 * j] && block[1] == p[4 * j + 1] && block[2] == p[4 * j + 2] && block[3] == p[4 * j + 3];
  }

  lemma CoefficientsReflect(p: Word)
    requires forall j :: 0 <= j < 8 ==> Coefficients(p, j)
    ensures IsReflected(p)
  {
    forall k | 0 <= k < 32
      ensures p[31 - k] == Generator()[k]
    {
      assert Coefficients(p, (31 - k) / 4);
    }
  }

  lemma DigitsAreReflected(ds: seq<nat>, p: Word)
    requires ds == [8, 7, 11, 3, 6, 15, 2, 8] && p == BitsOfDigits(ds)
    ensures IsReflected(p)
  {
    forall j | 0 <= j < 8
      ensures Coefficients(p, j)
    {
      DigitAt(ds, j);
      DigitFits(p, j, ds[j]);
    }
    CoefficientsReflect(p);
  }

  /** One bit into the register is one more bit of the message. */
  lemma FeedsOne(p: Word, bits: seq<bool>, m: bool, v: Word)
    requires IsReflected(p) && v == Reflected(Remainder(Dividend(bits)))
    ensures ShiftBy(p, Xor(v, BitAt(0, m))) == Reflected(Remainder(Dividend(bits + [m])))
  {
    RemainderGrows(bits, m);
    StepsAlike(p, Remainder(Dividend(bits)), m, v);
  }

  lemma ShiftAt(p: Word, v: Word, i: nat)
    requires i < 32
    ensures ShiftBy(p, v)[i] == ((i < 31 && v[i + 1]) != (v[0] && p[i]))
  {
  }

  lemma ReducedAt(r: Word, k: nat)
    requires k < 32
    ensures Reduced([false] + r)[k] == ((k > 0 && r[k - 1]) != (r[31] && Generator()[k]))
  {
  }

  lemma StepsAlike(p: Word, r: Word, m: bool, v: Word)
    requires IsReflected(p) && v == Reflected(r)
    ensures ShiftBy(p, Xor(v, BitAt(0, m))) == Reflected(Xor(Reduced([false] + r), Times(m, Generator())))
  {
    var fed, after := Xor(v, BitAt(0, m)), Xor(Reduced([false] + r), Times(m, Generator()));
    forall i | 0 <= i < 32
      ensures ShiftBy(p, fed)[i] == Reflected(after)[i]
    {
      ShiftAt(p, fed, i);
      ReducedAt(r, 31 - i);
      assert p[31 - (31 - i)] == Generator()[31 - i];
      assert fed[0] == (v[0] != m) && (i < 31 ==> fed[i + 1] == v[i + 1]);
    }
    SameWord(ShiftBy(p, fed), Reflected(after));
  }

  lemma {:induction false} FedIsRemainder(p: Word, bits: seq<bool>)
    requires IsReflected(p)
    ensures Feed(ShiftStep(p), Ones(), bits) == Reflected(Remainder(Dividend(bits)))
  {
    if bits == [] {
      SameWord(Ones(), Reflected(Dividend(bits)));
    } else {
      var init, last := bits[..|bits| - 1], bits[|bits| - 1];
      FedIsRemainder(p, init);
      FeedsOne(p, init, last, Feed(ShiftStep(p), Ones(), init));
      assert bits == init + [last];
    }
  }

  function Placed(bits: seq<bool>): (w: Word)
    requires |bits| <= 32
  {
    bits + seq(32 - |bits|, _ => false)
  }

  /** Bits can be put into the register at once, and then stepped through. */
  lemma {:induction false} FedAtOnce(step: Step, v: Word, bits: seq<bool>)
    requires IsRegisterStep(step) && |bits| <= 32
    ensures Feed(step, v, bits) == Iterate(step, Xor(v, Placed(bits)), |bits|)
  {
    if bits == [] {
      SameWord(v, Xor(v, Placed(bits)));
    } else {
      var n := |bits| - 1;
      var init, last := bits[..n], BitAt(n, bits[n]);
      FedAtOnce(step, v, init);
      SameWord(Xor(v, Placed(bits)), Xor(Xor(v, Placed(init)), last));
      IterateLinear(step, Xor(v, Placed(init)), last, n);
      IterateClearBits(step, last, n);
      SameWord(MoveDown(last, n), BitAt(0, bits[n]));
    }
  }

  lemma {:induction false} FedTogether(step: Step, v: Word, a: seq<bool>, b: seq<bool>)
    ensures Feed(step, v, a + b) == Feed(step, Feed(step, v, a), b)
  {
    if b == [] {
      assert a + b == a;
    } else {
      var n := |b| - 1;
      FedTogether(step, v, a, b[..n]);
      assert (a + b)[..|a + b| - 1] == a + b[..n];
    }
  }

  lemma {:induction false} RegisterIsFed(step: Step, s: seq<byte>)
    requires IsRegisterStep(step)
    ensures Register(step, s) == Feed(step, Ones(), BitsOf(s))
  {
    if s != [] {
      var init, last := s[..|s| - 1], s[|s| - 1];
      RegisterIsFed(step, init);
      assert Pow2(8) == 256;
      var bits := ToBits(last as nat, 8);
      FedTogether(step, Ones(), BitsOf(init), bits);
      FedAtOnce(step, Register(step, init), bits);
      assert Placed(bits) == Widen(last);
    }
  }

  lemma RegisterIsRemainder(p: Word, s: seq<byte>)
    requires IsReflected(p)
    ensures Register(ShiftStep(p), s) == Reflected(Remainder(Dividend(BitsOf(s))))
  {
    assert p[31 - 0] == Generator()[0];
    ShiftIsRegisterStep(p);
    RegisterIsFed(ShiftStep(p), s);
    FedIsRemainder(p, BitsOf(s));
  }

  /**
   The checksum is the complement of the remainder of the message's polynomial,
   its highest coefficient in the lowest bit.
   */
  lemma CrcIsRemainder(s: seq<byte>, k: nat)
    requires k < 32
    ensures Crc(s)[31 - k] <==> !Remainder(Dividend(BitsOf(s)))[k]
  {
    PolynomialIsReflected();
    RegisterIsRemainder(Polynomial(), s);
  }
}
