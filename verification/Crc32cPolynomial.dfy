/**
 * What a CRC-32C is: with the bits of bytes and registers taken in the order they are sent, the remainder of a division of
 * polynomials whose coefficients are bits (util/crc32c.cc and its table).
 */
module Crc32cPolynomials {
  import opened InternalKeys
  import opened Crc32c
  import opened Crc32cStrided

  // Polynomials

  /** The powers of x a polynomial has. */
  type Poly = set<nat>

  /** The polynomial of Castagnoli, x^32 + x^28 + x^27 + ... + 1. */
  const GENERATOR: Poly := {32, 28, 27, 26, 25, 23, 22, 20, 19, 18, 14, 13, 11, 10, 9, 8, 6, 0}

  const DEGREE: nat := 32

  function Plus(a: Poly, b: Poly): Poly { (a - b) + (b - a) }

  /** The product with a power of x. */
  function Raised(a: Poly, n: nat): (r: Poly)
    ensures forall e :: e in r <==> e >= n && e - n in a
  {
    set e | e in a :: Up(e, n)
  }

  function Up(e: nat, n: nat): nat { e + n }

  /** The terms of `a` that a term of `b` makes up to the power `e`. */
  function Terms(a: Poly, b: Poly, e: nat): set<nat> { set k | k in a && k <= e && e - k in b }

  /** The product has a power if it comes up an odd number of times. */
  predicate InProduct(a: Poly, b: Poly, e: nat) { |Terms(a, b, e)| % 2 == 1 }

  /** `p` is `r` and a multiple of the generator. */
  ghost predicate IsQuotient(p: Poly, r: Poly, q: Poly) {
    forall e: nat :: e in p <==> (e in r) != InProduct(q, GENERATOR, e)
  }

  ghost predicate Congruent(p: Poly, r: Poly) { exists q :: IsQuotient(p, r, q) }

  ghost predicate IsRemainder(p: Poly, r: Poly) { (forall e :: e in r ==> e < DEGREE) && Congruent(p, r) }

  // Calculating with them

  lemma ParityOfSum(a: set<nat>, b: set<nat>)
    ensures |Plus(a, b)| % 2 == (|a| + |b|) % 2
  {
    assert a == (a - b) + (a * b) && b == (b - a) + (a * b);
    assert |a| == |a - b| + |a * b| && |b| == |b - a| + |a * b|;
    assert |Plus(a, b)| == |a - b| + |b - a|;
  }

  lemma ProductAdds(p: Poly, q: Poly, b: Poly, e: nat)
    ensures InProduct(Plus(p, q), b, e) == (InProduct(p, b, e) != InProduct(q, b, e))
  {
    hide Plus, Terms;
    ParityOfSum(Terms(p, b, e), Terms(q, b, e));
    TermsAdd(p, q, b, e);
  }

  lemma TermsAdd(p: Poly, q: Poly, b: Poly, e: nat)
    ensures Terms(Plus(p, q), b, e) == Plus(Terms(p, b, e), Terms(q, b, e))
  {
    forall k
      ensures k in Terms(Plus(p, q), b, e) <==> k in Plus(Terms(p, b, e), Terms(q, b, e))
    {
    }
  }

  lemma {:induction false} RaisedSize(a: set<nat>, n: nat)
    ensures |Raised(a, n)| == |a|
    decreases |a|
  {
    if a != {} {
      var k :| k in a;
      RaisedSize(a - {k}, n);
      assert Raised(a, n) == Raised(a - {k}, n) + {k + n};
    } else {
      assert Raised(a, n) == {};
    }
  }

  lemma ProductRaised(p: Poly, b: Poly, n: nat, e: nat)
    ensures InProduct(Raised(p, n), b, e) == (e >= n && InProduct(p, b, e - n))
  {
    if e >= n {
      RaisedSize(Terms(p, b, e - n), n);
      assert Terms(Raised(p, n), b, e) == Raised(Terms(p, b, e - n), n);
    } else {
      assert Terms(Raised(p, n), b, e) == {};
    }
  }

  lemma SameIsCongruent(p: Poly)
    ensures Congruent(p, p)
  {
    forall e: nat
      ensures !InProduct({}, GENERATOR, e)
    {
      assert Terms({}, GENERATOR, e) == {};
    }
    assert IsQuotient(p, p, {});
  }

  lemma CongruentOn(p: Poly, q: Poly, r: Poly)
    requires Congruent(p, q) && Congruent(q, r)
    ensures Congruent(p, r)
  {
    hide InProduct;
    var a :| IsQuotient(p, q, a);
    var b :| IsQuotient(q, r, b);
    forall e: nat
      ensures InProduct(Plus(a, b), GENERATOR, e) == (InProduct(a, GENERATOR, e) != InProduct(b, GENERATOR, e))
    {
      ProductAdds(a, b, GENERATOR, e);
    }
    assert IsQuotient(p, r, Plus(a, b));
  }

  lemma CongruentPlus(p: Poly, r: Poly, c: Poly)
    requires Congruent(p, r)
    ensures Congruent(Plus(p, c), Plus(r, c))
  {
    hide InProduct;
    var q :| IsQuotient(p, r, q);
    assert IsQuotient(Plus(p, c), Plus(r, c), q);
  }

  lemma CongruentRaised(p: Poly, r: Poly, n: nat)
    requires Congruent(p, r)
    ensures Congruent(Raised(p, n), Raised(r, n))
  {
    hide InProduct;
    var q :| IsQuotient(p, r, q);
    forall e: nat
      ensures e in Raised(p, n) <==> (e in Raised(r, n)) != InProduct(Raised(q, n), GENERATOR, e)
    {
      ProductRaised(q, GENERATOR, n, e);
      assert e in Raised(p, n) <==> e >= n && e - n in p;
      assert e in Raised(r, n) <==> e >= n && e - n in r;
    }
    assert IsQuotient(Raised(p, n), Raised(r, n), Raised(q, n));
  }

  function Above(q: set<nat>, k: nat): set<nat> { set j | j in q && k < j }

  lemma {:induction false} LargestFrom(q: set<nat>, k: nat) returns (m: nat)
    requires k in q
    ensures m in q && forall j :: j in q ==> j <= m
    decreases |Above(q, k)|
  {
    m := k;
    if n :| n in q && k < n {
      var above, further := Above(q, k), Above(q, n);
      assert further <= above - {n} && n in above;
      assert |above - {n}| == |above| - 1;
      Fewer(further, above - {n});
      m := LargestFrom(q, n);
    }
  }

  lemma {:induction false} Fewer(a: set<nat>, b: set<nat>)
    requires a <= b
    ensures |a| <= |b|
  {
    assert b == a + (b - a);
  }

  /** A multiple of the generator that is not zero has a power not below the generator's degree. */
  lemma MultiplesAreHigh(q: Poly)
    requires q != {}
    ensures exists e: nat :: e >= DEGREE && InProduct(q, GENERATOR, e)
  {
    var k :| k in q;
    var m := LargestFrom(q, k);
    assert Terms(q, GENERATOR, m + DEGREE) == {m};
    assert InProduct(q, GENERATOR, m + DEGREE);
  }

  /** There is only one remainder. */
  lemma RemainderIsUnique(p: Poly, r: Poly, s: Poly)
    requires IsRemainder(p, r) && IsRemainder(p, s)
    ensures r == s
  {
    var a :| IsQuotient(p, r, a);
    var b :| IsQuotient(p, s, b);
    var q := Plus(a, b);
    forall e: nat
      ensures InProduct(q, GENERATOR, e) == ((e in r) != (e in s))
    {
      ProductAdds(a, b, GENERATOR, e);
    }
    if q != {} {
      MultiplesAreHigh(q);
    } else {
      forall e: nat
        ensures e in r <==> e in s
      {
        assert Terms(q, GENERATOR, e) == {};
      }
    }
  }

  // Registers and messages

  predicate Odd(l: bv32) { l & 1 == 1 }

  predicate Bit(l: bv32, k: nat) { if k == 0 then Odd(l) else Bit(Half(l), k - 1) }

  predicate Bit8(b: bv8, k: nat) { if k == 0 then b & 1 == 1 else Bit8(b >> 1, k - 1) }

  /** The lowest bit of a register stands for the highest power. */
  predicate HasPower(l: bv32, e: nat) { e < 32 && Bit(l, 31 - e) }

  function Coefficients(l: bv32): Poly { set e: nat | e < 32 && HasPower(l, e) }

  /** The first bit of a message, the lowest of its first byte, stands for the highest power. */
  predicate SendsPower(data: Bytes, e: nat) {
    e < 8 * |data| && Bit8(data[|data| - 1 - e / 8] as bv8, 7 - e % 8)
  }

  function Message(data: Bytes): Poly { set e: nat | e < 8 * |data| && SendsPower(data, e) }

  lemma OddOfSum(a: bv32, b: bv32)
    ensures Odd(Add(a, b)) == (Odd(a) != Odd(b))
  {
  }

  lemma {:induction false} BitOfSum(a: bv32, b: bv32, k: nat)
    ensures Bit(Add(a, b), k) == (Bit(a, k) != Bit(b, k))
    decreases k
  {
    hide Add, Odd, Half;
    if k > 0 {
      HalfAdds(a, b);
      BitOfSum(Half(a), Half(b), k - 1);
    } else {
      OddOfSum(a, b);
    }
  }

  lemma CoefficientsAdd(a: bv32, b: bv32)
    ensures Coefficients(Add(a, b)) == Plus(Coefficients(a), Coefficients(b))
  {
    hide Add, Bit;
    forall k: nat ensures Bit(Add(a, b), k) == (Bit(a, k) != Bit(b, k)) { BitOfSum(a, b, k); }
  }

  lemma {:induction false} NoBits(k: nat)
    ensures !Bit(0, k)
  {
    if k > 0 { NoBits(k - 1); }
  }

  /** The register's polynomial is the generator's without its highest power. */
  lemma PolynomialBits()
    ensures Coefficients(POLYNOMIAL) == GENERATOR - {DEGREE}
  {
    FourBits(POLYNOMIAL);
    FourBits(POLYNOMIAL >> 4);
    FourBits(POLYNOMIAL >> 8);
    FourBits(POLYNOMIAL >> 12);
    FourBits(POLYNOMIAL >> 16);
    FourBits(POLYNOMIAL >> 20);
    FourBits(POLYNOMIAL >> 24);
    FourBits(POLYNOMIAL >> 28);
  }

  lemma FourBits(l: bv32)
    ensures Bit(l, 0) == Odd(l) && Bit(l, 1) == Odd(l >> 1) && Bit(l, 2) == Odd(l >> 2) && Bit(l, 3) == Odd(l >> 3)
    ensures forall k: nat :: k >= 4 ==> Bit(l, k) == Bit(l >> 4, k - 4)
  {
    hide Odd;
    FourHalves(l);
    var a, b, c := Half(l), Half(Half(l)), Half(Half(Half(l)));
    hide Half;
    assert Bit(l, 1) == Bit(a, 0) && Bit(l, 2) == Bit(a, 1) && Bit(a, 1) == Bit(b, 0);
    assert Bit(l, 3) == Bit(a, 2) && Bit(a, 2) == Bit(b, 1) && Bit(b, 1) == Bit(c, 0);
    forall k: nat | k >= 4
      ensures Bit(l, k) == Bit(l >> 4, k - 4)
    {
      assert Bit(l, k) == Bit(a, k - 1) == Bit(b, k - 2) == Bit(c, k - 3) == Bit(Half(c), k - 4);
    }
  }

  lemma FourHalves(l: bv32)
    ensures Half(l) == l >> 1 && Half(Half(l)) == l >> 2 && Half(Half(Half(l))) == l >> 3
    ensures Half(Half(Half(Half(l)))) == l >> 4
  {
  }

  // The register is the remainder

  /** One shift multiplies by x, and takes the generator away if there is a power of its degree. */
  lemma ShiftIsProduct(l: bv32)
    ensures Congruent(Raised(Coefficients(l), 1), Coefficients(Shift(l)))
  {
    hide Add, Half, Odd, InProduct, Shift;
    var p, r := Raised(Coefficients(l), 1), Coefficients(Shift(l));
    var q: Poly := if Odd(l) then {0} else {};
    ShiftedBits(l);
    PolynomialBits();
    forall e: nat
      ensures InProduct(q, GENERATOR, e) == (Odd(l) && e in GENERATOR)
    {
      ProductOfOne(l, q, e);
    }
    NoFurtherBit(l);
    forall e: nat
      ensures e in p <==> (e in r) != (Odd(l) && e in GENERATOR)
    {
      assert e in p <==> 1 <= e && HasPower(l, e - 1);
      assert e in GENERATOR - {DEGREE} <==> HasPower(POLYNOMIAL, e);
      if e < 32 {
        var k: nat := 31 - e;
        assert Bit(Shift(l), k) == (Bit(l, k + 1) != (Odd(l) && Bit(POLYNOMIAL, k)));
      }
    }
    assert IsQuotient(p, r, q);
  }

  lemma NoFurtherBit(l: bv32)
    ensures !Bit(l, 32)
  {
    hide Bit;
    SixteenDown(l, 32);
    SixteenDown(l >> 16, 16);
    Gone(l);
    NoBits(0);
  }

  lemma Gone(l: bv32)
    ensures (l >> 16) >> 16 == 0 && (l >> 4) >> 4 == l >> 8 && (l >> 8) >> 8 == l >> 16
  {
  }

  lemma EightDown(l: bv32, k: nat)
    requires k >= 8
    ensures Bit(l, k) == Bit(l >> 8, k - 8)
  {
    hide Bit;
    FourBits(l);
    FourBits(l >> 4);
    Gone(l);
  }

  lemma SixteenDown(l: bv32, k: nat)
    requires k >= 16
    ensures Bit(l, k) == Bit(l >> 16, k - 16)
  {
    hide Bit;
    EightDown(l, k);
    EightDown(l >> 8, k - 8);
    Gone(l);
  }

  lemma ProductOfOne(l: bv32, q: Poly, e: nat)
    requires q == if Odd(l) then {0} else {}
    ensures InProduct(q, GENERATOR, e) == (Odd(l) && e in GENERATOR)
  {
    assert Terms(q, GENERATOR, e) == if Odd(l) && e in GENERATOR then {0} else {};
  }

  lemma ShiftedBits(l: bv32)
    ensures forall k: nat :: k < 32 ==> Bit(Shift(l), k) == (Bit(l, k + 1) != (Odd(l) && Bit(POLYNOMIAL, k)))
  {
    hide Add, Half, Shift;
    ShiftIs(l);
    CarryIs(l);
    forall k: nat | k < 32
      ensures Bit(Shift(l), k) == (Bit(l, k + 1) != (Odd(l) && Bit(POLYNOMIAL, k)))
    {
      BitOfSum(Half(l), Carry(l), k);
      NoBits(k);
    }
  }

  lemma CarryIs(l: bv32)
    ensures Carry(l) == if Odd(l) then POLYNOMIAL else 0
  {
  }

  lemma {:induction false} ShiftsAreProduct(l: bv32, n: nat)
    ensures Congruent(Raised(Coefficients(l), n), Coefficients(ShiftBits(l, n)))
  {
    hide Shift, Coefficients, Congruent;
    if n == 0 {
      assert Raised(Coefficients(l), 0) == Coefficients(l);
      SameIsCongruent(Coefficients(l));
    } else {
      ShiftsAreProduct(l, n - 1);
      CongruentRaised(Raised(Coefficients(l), n - 1), Coefficients(ShiftBits(l, n - 1)), 1);
      assert Raised(Raised(Coefficients(l), n - 1), 1) == Raised(Coefficients(l), n);
      ShiftIsProduct(ShiftBits(l, n - 1));
      CongruentOn(Raised(Coefficients(l), n), Raised(Coefficients(ShiftBits(l, n - 1)), 1), Coefficients(ShiftBits(l, n)));
    }
  }

  // Bytes

  lemma OddByte(b: bv8)
    ensures Odd(b as bv32) == (b & 1 == 1) && Half(b as bv32) == (b >> 1) as bv32
  {
  }

  lemma {:induction false} ByteBits(b: bv8, k: nat)
    ensures Bit(b as bv32, k) == Bit8(b, k)
    decreases k
  {
    hide Odd, Half;
    OddByte(b);
    if k > 0 { ByteBits(b >> 1, k - 1); }
  }

  lemma EightBits(b: bv8, k: nat)
    requires k >= 8
    ensures !Bit(b as bv32, k)
  {
    hide Odd, Half;
    FourBits(b as bv32);
    FourBits((b as bv32) >> 4);
    NothingLeft(b);
    NoBits(k - 8);
  }

  lemma NothingLeft(b: bv8)
    ensures ((b as bv32) >> 4) >> 4 == 0
  {
  }

  lemma ByteOfRegister(b: Byte)
    ensures Raised(Coefficients(Bits(b)), 8) == Raised(ByteCoefficients(b), 32)
  {
    hide Odd, Half, Bit, Bit8;
    forall e: nat
      ensures e in Raised(Coefficients(Bits(b)), 8) <==> e in Raised(ByteCoefficients(b), 32)
    {
      assert e in Raised(ByteCoefficients(b), 32) <==> e >= 32 && e - 32 < 8 && SendsPower([b], e - 32);
      assert e in Raised(Coefficients(Bits(b)), 8) <==> e >= 8 && e - 8 < 32 && HasPower(Bits(b), e - 8);
      if 8 <= e < 40 { PowerOfByte(b, e); }
    }
  }

  lemma PowerOfByte(b: Byte, e: nat)
    requires 8 <= e < 40
    ensures HasPower(Bits(b), e - 8) == (e >= 32 && SendsPower([b], e - 32))
  {
    hide Odd, Half, Bit, Bit8;
    if e >= 32 {
      ByteBits(b as bv8, 39 - e);
      assert (e - 32) / 8 == 0 && (e - 32) % 8 == e - 32;
    } else {
      EightBits(b as bv8, 39 - e);
    }
  }

  function ByteCoefficients(b: Byte): Poly { Message([b]) }

  lemma OneByteMore(front: Bytes, b: Byte)
    ensures Message(front + [b]) == Plus(Raised(Message(front), 8), ByteCoefficients(b))
  {
    var data := front + [b];
    forall e: nat
      ensures SendsPower(data, e) <==> if e < 8 then SendsPower([b], e) else SendsPower(front, e - 8)
    {
      if e >= 8 {
        assert (e - 8) / 8 == e / 8 - 1 && (e - 8) % 8 == e % 8;
        if e < 8 * |data| { assert data[|data| - 1 - e / 8] == front[|front| - 1 - (e - 8) / 8]; }
      }
    }
  }

  /** A byte step multiplies by x^8 and adds the byte, multiplied by the power of the generator's degree. */
  lemma StepIsProduct(l: bv32, b: Byte)
    ensures Congruent(Plus(Raised(Coefficients(l), 8), Raised(ByteCoefficients(b), 32)), Coefficients(Step(l, b)))
  {
    hide Coefficients, ByteCoefficients, Congruent, Step, ShiftBits, Add, Bits;
    StepIs(l, b);
    ShiftsAreProduct(Add(l, Bits(b)), 8);
    CoefficientsAdd(l, Bits(b));
    ByteOfRegister(b);
    assert Raised(Plus(Coefficients(l), Coefficients(Bits(b))), 8)
           == Plus(Raised(Coefficients(l), 8), Raised(Coefficients(Bits(b)), 8));
  }

  /** The register, to which the message is added behind what was there. */
  function Dividend(l: bv32, data: Bytes): Poly {
    Plus(Raised(Coefficients(l), 8 * |data|), Raised(Message(data), DEGREE))
  }

  lemma {:induction false} FoldIsCongruent(l: bv32, data: Bytes)
    ensures Congruent(Dividend(l, data), Coefficients(Fold(l, data)))
  {
    hide Coefficients, ByteCoefficients, Congruent, Step;
    if data == [] {
      assert Dividend(l, data) == Coefficients(l) by { NoMessage(l); }
      SameIsCongruent(Coefficients(l));
    } else {
      var n := |data| - 1;
      var front, b := data[..n], data[n];
      assert data == front + [b];
      FoldIsCongruent(l, front);
      OneByteMore(front, b);
      CongruentRaised(Dividend(l, front), Coefficients(Fold(l, front)), 8);
      CongruentPlus(Raised(Dividend(l, front), 8), Raised(Coefficients(Fold(l, front)), 8), Raised(ByteCoefficients(b), 32));
      StepIsProduct(Fold(l, front), b);
      DividendOn(l, front, b);
      CongruentOn(Dividend(l, data), Plus(Raised(Coefficients(Fold(l, front)), 8), Raised(ByteCoefficients(b), 32)),
                  Coefficients(Fold(l, data)));
    }
  }

  lemma NoMessage(l: bv32)
    ensures Dividend(l, []) == Coefficients(l)
  {
    hide Coefficients;
    assert Message([]) == {};
  }

  lemma DividendOn(l: bv32, front: Bytes, b: Byte)
    ensures Dividend(l, front + [b]) == Plus(Raised(Dividend(l, front), 8), Raised(ByteCoefficients(b), 32))
  {
    hide Coefficients, ByteCoefficients, Message;
    OneByteMore(front, b);
  }

  /** The register after the bytes of a message is the remainder of what it was and the message behind it. */
  lemma FoldIsRemainder(l: bv32, data: Bytes)
    ensures IsRemainder(Dividend(l, data), Coefficients(Fold(l, data)))
  {
    hide Congruent;
    FoldIsCongruent(l, data);
  }

  /**
   * The CRC-32C of some bytes: with all its bits inverted, the remainder of 32 bits set and the message behind them,
   * multiplied by x^32. There is only one such register polynomial.
   */
  lemma ValueIsRemainder(data: Bytes)
    ensures IsRemainder(Dividend(ONES, data), Coefficients(Crc32c.Value(data) ^ ONES))
    ensures forall r :: IsRemainder(Dividend(ONES, data), r) ==> r == Coefficients(Crc32c.Value(data) ^ ONES)
  {
    hide IsRemainder, Dividend, Fold, Coefficients;
    Register(0, data);
    ZeroIsNeutral();
    FoldIsRemainder(ONES, data);
    forall r | IsRemainder(Dividend(ONES, data), r)
      ensures r == Coefficients(Crc32c.Value(data) ^ ONES)
    {
      RemainderIsUnique(Dividend(ONES, data), r, Coefficients(Crc32c.Value(data) ^ ONES));
    }
  }

  lemma ZeroIsNeutral()
    ensures 0 ^ ONES == ONES
  {
  }
}
