/**
 * CRC-16/IBM as the codec computes it (reflected polynomial 0xA001, initial value 0, no final
 * xor), and the corruptions it is guaranteed to detect: any damage confined to two adjacent
 * bytes, and any odd number of flipped bits anywhere in the span.
 */
module Crc16 {
  import opened Bytes

  const POLYNOMIAL: nat := 0xA001

  /** Bitwise exclusive or of two non-negative numbers. */
  function Xor(a: nat, b: nat): nat {
    if a == 0 && b == 0 then 0 else 2 * Xor(a / 2, b / 2) + (a + b) % 2
  }

  /** One shift of the register. */
  function Shift(c: nat): nat {
    if c % 2 == 1 then Xor(c / 2, POLYNOMIAL) else c / 2
  }

  function Shifts(c: nat, n: nat): nat {
    if n == 0 then c else Shift(Shifts(c, n - 1))
  }

  /** The register after absorbing one byte. */
  function Absorb(c: nat, b: byte): nat {
    Shifts(Xor(c, b), 8)
  }

  /** The register after absorbing `span`, starting from `c`. */
  function CrcFrom(c: nat, span: seq<byte>): nat
    decreases |span|
  {
    if span == [] then c else CrcFrom(Absorb(c, span[0]), span[1..])
  }

  function Crc(span: seq<byte>): (v: nat)
    ensures v < 0x1_0000
  {
    CrcBound(0, span);
    CrcFrom(0, span)
  }

  method Crc16Ibm(buf: seq<byte>) returns (crc: nat)
    ensures crc == Crc(buf)
  {
    crc := 0;
    for i := 0 to |buf|
      invariant CrcFrom(crc, buf[i..]) == Crc(buf)
    {
      ghost var before := crc;
      crc := Xor(crc, buf[i]);
      for k := 0 to 8
        invariant crc == Shifts(Xor(before, buf[i]), k)
      {
        crc := if crc % 2 == 1 then Xor(crc / 2, 0xA001) else crc / 2;
      }
      assert buf[i..][1..] == buf[i + 1..];
    }
  }

  // ----- exclusive or -----

  lemma {:induction false} XorSymmetric(a: nat, b: nat)
    ensures Xor(a, b) == Xor(b, a)
  {
    if a != 0 || b != 0 {
      XorSymmetric(a / 2, b / 2);
    }
  }

  lemma {:induction false} XorAssociative(a: nat, b: nat, c: nat)
    ensures Xor(Xor(a, b), c) == Xor(a, Xor(b, c))
    decreases a + b + c
  {
    hide Xor;
    XorHalves(a, b);
    XorHalves(b, c);
    XorHalves(Xor(a, b), c);
    XorHalves(a, Xor(b, c));
    if a + b + c > 0 {
      XorAssociative(a / 2, b / 2, c / 2);
    } else {
      XorZero(0);
    }
  }

  lemma {:induction false} XorZero(a: nat)
    ensures Xor(a, 0) == a && Xor(0, a) == a
  {
    if a != 0 {
      XorZero(a / 2);
    }
  }

  lemma {:induction false} XorEqual(a: nat, b: nat)
    ensures Xor(a, b) == 0 <==> a == b
  {
    if a != 0 || b != 0 {
      XorEqual(a / 2, b / 2);
    }
  }

  lemma XorHalves(a: nat, b: nat)
    ensures Xor(a, b) / 2 == Xor(a / 2, b / 2)
    ensures Xor(a, b) % 2 == (a + b) % 2
  {
  }

  /** The same operand on both sides drops out. */
  lemma XorCommonOperand(a: nat, b: nat, p: nat)
    ensures Xor(Xor(p, a), Xor(p, b)) == Xor(a, b)
  {
    XorSymmetric(p, a);
    XorAssociative(a, p, Xor(p, b));
    XorAssociative(p, p, b);
    XorEqual(p, p);
    XorZero(b);
  }

  /** (u ^ x) ^ (v ^ y) regrouped. */
  lemma XorRegroup(u: nat, x: nat, v: nat, y: nat)
    ensures Xor(Xor(u, x), Xor(v, y)) == Xor(Xor(u, v), Xor(x, y))
  {
    XorAssociative(u, x, Xor(v, y));
    XorAssociative(x, v, y);
    XorSymmetric(x, v);
    XorAssociative(v, x, y);
    XorAssociative(u, v, Xor(x, y));
  }

  function Pow2(k: nat): (p: nat)
    ensures p > 0
  {
    if k == 0 then 1 else 2 * Pow2(k - 1)
  }

  lemma {:induction false} XorBound(a: nat, b: nat, k: nat)
    requires a < Pow2(k) && b < Pow2(k)
    ensures Xor(a, b) < Pow2(k)
  {
    if k > 0 && (a != 0 || b != 0) {
      XorBound(a / 2, b / 2, k - 1);
    }
  }

  lemma {:induction false} XorTopBit(a: nat, b: nat, k: nat)
    requires a < Pow2(k) <= b < 2 * Pow2(k)
    ensures Pow2(k) <= Xor(a, b)
  {
    if k > 0 {
      XorTopBit(a / 2, b / 2, k - 1);
    }
  }

  lemma Pow2Values()
    ensures Pow2(7) == 0x80 && Pow2(8) == 0x100 && Pow2(15) == 0x8000 && Pow2(16) == 0x1_0000
  {
    assert Pow2(4) == 16;
    assert Pow2(8) == 16 * Pow2(4);
    assert Pow2(12) == 16 * Pow2(8);
    assert Pow2(15) == 8 * Pow2(12);
  }

  // ----- the register: bounded, linear, and losing no information -----

  lemma ShiftBound(c: nat)
    requires c < 0x1_0000
    ensures Shift(c) < 0x1_0000
    ensures c % 2 == 1 <==> Shift(c) >= 0x8000
  {
    Pow2Values();
    if c % 2 == 1 {
      XorBound(c / 2, POLYNOMIAL, 16);
      XorTopBit(c / 2, POLYNOMIAL, 15);
    }
  }

  lemma {:induction false} ShiftsBound(c: nat, n: nat)
    requires c < 0x1_0000
    ensures Shifts(c, n) < 0x1_0000
  {
    if n > 0 {
      ShiftsBound(c, n - 1);
      ShiftBound(Shifts(c, n - 1));
    }
  }

  lemma AbsorbBound(c: nat, b: byte)
    requires c < 0x1_0000
    ensures Xor(c, b) < 0x1_0000 && Absorb(c, b) < 0x1_0000
  {
    Pow2Values();
    XorBound(c, b, 16);
    ShiftsBound(Xor(c, b), 8);
  }

  lemma {:induction false} CrcBound(c: nat, span: seq<byte>)
    requires c < 0x1_0000
    ensures CrcFrom(c, span) < 0x1_0000
    decreases |span|
  {
    if span != [] {
      AbsorbBound(c, span[0]);
      CrcBound(Absorb(c, span[0]), span[1..]);
    }
  }

  lemma ShiftLinear(x: nat, y: nat)
    ensures Shift(Xor(x, y)) == Xor(Shift(x), Shift(y))
  {
    hide Xor;
    var h, g := x / 2, y / 2;
    XorHalves(x, y);
    if x % 2 == 1 && y % 2 == 1 {
      XorSymmetric(h, POLYNOMIAL);
      XorSymmetric(g, POLYNOMIAL);
      XorCommonOperand(h, g, POLYNOMIAL);
    } else if x % 2 == 1 {
      XorAssociative(h, POLYNOMIAL, g);
      XorSymmetric(POLYNOMIAL, g);
      XorAssociative(h, g, POLYNOMIAL);
    } else if y % 2 == 1 {
      XorAssociative(h, g, POLYNOMIAL);
    }
  }

  lemma {:induction false} ShiftsLinear(x: nat, y: nat, n: nat)
    ensures Shifts(Xor(x, y), n) == Xor(Shifts(x, n), Shifts(y, n))
  {
    if n > 0 {
      ShiftsLinear(x, y, n - 1);
      ShiftLinear(Shifts(x, n - 1), Shifts(y, n - 1));
    }
  }

  lemma {:induction false} ShiftsNonzero(x: nat, n: nat)
    requires 0 < x < 0x1_0000
    ensures 0 < Shifts(x, n) < 0x1_0000
  {
    if n > 0 {
      ShiftsNonzero(x, n - 1);
      ShiftBound(Shifts(x, n - 1));
    }
  }

  lemma AbsorbInjective(c: nat, a: byte, d: nat, b: byte)
    requires c < 0x1_0000 && d < 0x1_0000 && Xor(c, a) != Xor(d, b)
    ensures Absorb(c, a) != Absorb(d, b)
  {
    AbsorbBound(c, a);
    AbsorbBound(d, b);
    Pow2Values();
    var x, y := Xor(c, a), Xor(d, b);
    XorBound(x, y, 16);
    XorEqual(x, y);
    ShiftsLinear(x, y, 8);
    ShiftsNonzero(Xor(x, y), 8);
    XorEqual(Shifts(x, 8), Shifts(y, 8));
  }

  /** A register that stayed small after `n` shifts was only ever halved. */
  lemma {:induction false} SmallMeansHalved(x: nat, n: nat)
    requires n <= 8 && x < 0x1_0000 && Shifts(x, n) < 0x100 * Pow2(8 - n)
    ensures x == Shifts(x, n) * Pow2(n)
  {
    if n > 0 {
      var y := Shifts(x, n - 1);
      ShiftsBound(x, n - 1);
      ShiftBound(y);
      Pow2AtMost(8 - n, 7);
      Pow2Values();
      assert y == 2 * Shifts(x, n);
      SmallMeansHalved(x, n - 1);
      DoubledFactor(Shifts(x, n), Pow2(n - 1));
    }
  }

  lemma {:induction false} Pow2AtMost(k: nat, n: nat)
    requires k <= n
    ensures Pow2(k) <= Pow2(n)
  {
    if k < n {
      Pow2AtMost(k, n - 1);
    }
  }

  lemma DoubledFactor(v: nat, p: nat)
    ensures (2 * v) * p == v * (2 * p)
  {
  }

  /** Different registers stay different however many equal bytes follow. */
  lemma {:induction false} TailKeepsDifference(c: nat, d: nat, span: seq<byte>)
    requires c != d && c < 0x1_0000 && d < 0x1_0000
    ensures CrcFrom(c, span) != CrcFrom(d, span)
    decreases |span|
  {
    if span != [] {
      var b := span[0];
      SameByteKeepsDifference(c, d, b);
      AbsorbInjective(c, b, d, b);
      AbsorbBound(c, b);
      AbsorbBound(d, b);
      TailKeepsDifference(Absorb(c, b), Absorb(d, b), span[1..]);
    }
  }

  lemma SameByteKeepsDifference(c: nat, d: nat, b: nat)
    requires c != d
    ensures Xor(c, b) != Xor(d, b) && Xor(b, c) != Xor(b, d)
  {
    XorSymmetric(c, b);
    XorSymmetric(d, b);
    XorCommonOperand(c, d, b);
    XorEqual(c, d);
    XorEqual(Xor(b, c), Xor(b, d));
  }

  lemma LowByteSpreads(x: nat)
    requires 0 < x < 0x100
    ensures Shifts(x, 8) >= 0x100
  {
    if Shifts(x, 8) < 0x100 {
      Pow2Values();
      SmallMeansHalved(x, 8);
      ShiftsNonzero(x, 8);
      assert false;
    }
  }

  /** If two absorbed bytes leave the same register, they were the same two bytes. */
  lemma TwoBytesInjective(c: nat, a0: byte, a1: byte, b0: byte, b1: byte)
    requires c < 0x1_0000 && (a0 != b0 || a1 != b1)
    ensures Absorb(Absorb(c, a0), a1) != Absorb(Absorb(c, b0), b1)
  {
    hide Absorb, Xor, Shifts;
    AbsorbBound(c, a0);
    AbsorbBound(c, b0);
    var u, v := Absorb(c, a0), Absorb(c, b0);
    if a0 == b0 {
      SameByteKeepsDifference(a1, b1, u);
    } else {
      RegistersFarApart(c, a0, b0);
      XorRegroup(u, a1, v, b1);
      Pow2Values();
      XorBound(a1, b1, 8);
      XorEqual(Xor(u, v), Xor(a1, b1));
      XorEqual(Xor(u, a1), Xor(v, b1));
    }
    AbsorbInjective(u, a1, v, b1);
  }

  lemma RegistersFarApart(c: nat, a: byte, b: byte)
    requires c < 0x1_0000 && a != b
    ensures Xor(Absorb(c, a), Absorb(c, b)) >= 0x100
  {
    hide Xor, Shifts;
    ShiftsLinear(Xor(c, a), Xor(c, b), 8);
    XorCommonOperand(a, b, c);
    XorEqual(a, b);
    Pow2Values();
    XorBound(a, b, 8);
    LowByteSpreads(Xor(a, b));
  }

  /** Damage confined to two adjacent bytes, at any place of a span of any length, changes the register. */
  lemma {:induction false} AdjacentDamageReachesRegister(a: seq<byte>, b: seq<byte>, i: nat, c: nat)
    requires c < 0x1_0000
    requires |a| == |b| && a != b
    requires forall k :: 0 <= k < |a| && k != i && k != i + 1 ==> a[k] == b[k]
    ensures CrcFrom(c, a) != CrcFrom(c, b)
    decreases i
  {
    hide Absorb;
    assert a == a[..1] + a[1..] && b == b[..1] + b[1..];
    AbsorbBound(c, a[0]);
    AbsorbBound(c, b[0]);
    if i > 0 {
      assert a[0] == b[0];
      AdjacentDamageReachesRegister(a[1..], b[1..], i - 1, Absorb(c, a[0]));
    } else if |a| == 1 {
      SameByteKeepsDifference(a[0], b[0], c);
      AbsorbInjective(c, a[0], c, b[0]);
    } else {
      assert a[1..] == [a[1]] + a[2..] && b[1..] == [b[1]] + b[2..] && a[2..] == b[2..];
      TwoBytesInjective(c, a[0], a[1], b[0], b[1]);
      AbsorbBound(Absorb(c, a[0]), a[1]);
      AbsorbBound(Absorb(c, b[0]), b[1]);
      TailKeepsDifference(Absorb(Absorb(c, a[0]), a[1]), Absorb(Absorb(c, b[0]), b[1]), a[2..]);
    }
  }

  /** Two equal-length spans that differ only inside two adjacent bytes never share a CRC. */
  lemma AdjacentDamageChangesCrc(a: seq<byte>, b: seq<byte>, i: nat)
    requires |a| == |b| && a != b
    requires forall k :: 0 <= k < |a| && k != i && k != i + 1 ==> a[k] == b[k]
    ensures Crc(a) != Crc(b)
  {
    AdjacentDamageReachesRegister(a, b, i, 0);
  }

  // ----- parity: x + 1 divides the polynomial -----

  /** The number of set bits is odd. */
  predicate Odd(x: nat) {
    x != 0 && ((x % 2 == 1) != Odd(x / 2))
  }

  lemma {:induction false} OddXor(x: nat, y: nat)
    ensures Odd(Xor(x, y)) == (Odd(x) != Odd(y))
    decreases x + y
  {
    hide Xor, Odd;
    XorHalves(x, y);
    OddByHalves(x);
    OddByHalves(y);
    OddByHalves(Xor(x, y));
    if x + y > 0 {
      OddXor(x / 2, y / 2);
    } else {
      XorZero(0);
    }
  }

  lemma OddByHalves(x: nat)
    ensures Odd(x) == ((x % 2 == 1) != Odd(x / 2)) && !Odd(0)
  {
  }

  lemma OddPolynomial()
    ensures Odd(POLYNOMIAL)
  {
    assert !Odd(0xA) && !Odd(0xA0) && !Odd(0xA00);
  }

  lemma {:induction false} ShiftsKeepParity(x: nat, n: nat)
    ensures Odd(Shifts(x, n)) == Odd(x)
  {
    if n > 0 {
      hide Xor, Odd;
      ShiftsKeepParity(x, n - 1);
      OddByHalves(Shifts(x, n - 1));
      OddPolynomial();
      OddXor(Shifts(x, n - 1) / 2, POLYNOMIAL);
    }
  }

  /** An odd number of bits differ between the two spans. */
  predicate OddFlips(a: seq<byte>, b: seq<byte>)
    requires |a| == |b|
  {
    a != [] && (Odd(Xor(a[0], b[0])) != OddFlips(a[1..], b[1..]))
  }

  lemma {:induction false} OddFlipsReachRegister(c: nat, d: nat, a: seq<byte>, b: seq<byte>)
    requires |a| == |b|
    ensures (Odd(CrcFrom(c, a)) != Odd(CrcFrom(d, b))) == ((Odd(c) != Odd(d)) != OddFlips(a, b))
    decreases |a|
  {
    hide Odd, Xor;
    if a != [] {
      OddXor(c, a[0]);
      OddXor(d, b[0]);
      OddXor(a[0], b[0]);
      ShiftsKeepParity(Xor(c, a[0]), 8);
      ShiftsKeepParity(Xor(d, b[0]), 8);
      OddFlipsReachRegister(Absorb(c, a[0]), Absorb(d, b[0]), a[1..], b[1..]);
    }
  }

  /** An odd number of flipped bits, wherever they fall, changes the CRC. */
  lemma OddDamageChangesCrc(a: seq<byte>, b: seq<byte>)
    requires |a| == |b| && OddFlips(a, b)
    ensures Crc(a) != Crc(b)
  {
    OddFlipsReachRegister(0, 0, a, b);
  }
}
