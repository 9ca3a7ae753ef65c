/**
 * The portable CRC-32C that runs over four strides of words at once (util/crc32c.cc, Extend): it equals the CRC one byte
 * at a time. Registers add by exclusive or, and shifting them is linear.
 */
module Crc32cStrided {
  import opened InternalKeys
  import opened Crc32c

  // Addition of registers

  lemma AddCommutes(a: bv32, b: bv32)
    ensures Add(a, b) == Add(b, a)
  {
  }

  lemma AddAssociates(a: bv32, b: bv32, c: bv32)
    ensures Add(Add(a, b), c) == Add(a, Add(b, c))
  {
  }

  lemma AddRegroups(a: bv32, b: bv32, c: bv32, d: bv32)
    ensures Add(Add(a, b), Add(c, d)) == Add(Add(a, c), Add(b, d))
  {
    hide Add;
    AddAssociates(a, b, Add(c, d));
    AddAssociates(b, c, d);
    AddCommutes(b, c);
    AddAssociates(c, b, d);
    AddAssociates(a, c, Add(b, d));
  }

  lemma AddZero(a: bv32)
    ensures Add(a, 0) == a && Add(0, a) == a
  {
  }

  // Shifting is linear

  function Half(l: bv32): bv32 { l >> 1 }

  /** The polynomial, if the bit shifted out is set. */
  function Carry(l: bv32): bv32 { if l & 1 == 1 then POLYNOMIAL else 0 }

  lemma ShiftOdd(l: bv32)
    requires l & 1 == 1
    ensures Shift(l) == Add(Half(l), Carry(l))
  {
  }

  lemma ShiftEven(l: bv32)
    requires l & 1 != 1
    ensures Shift(l) == Add(Half(l), Carry(l))
  {
  }

  lemma ShiftIs(l: bv32)
    ensures Shift(l) == Add(Half(l), Carry(l))
  {
    hide Shift, Half, Carry, Add;
    if l & 1 == 1 { ShiftOdd(l); } else { ShiftEven(l); }
  }

  lemma CarryAdds(a: bv32, b: bv32)
    ensures Carry(Add(a, b)) == Add(Carry(a), Carry(b))
  {
  }

  lemma HalfAdds(a: bv32, b: bv32)
    ensures Half(Add(a, b)) == Add(Half(a), Half(b))
  {
  }

  lemma ShiftAdds(a: bv32, b: bv32)
    ensures Shift(Add(a, b)) == Add(Shift(a), Shift(b))
  {
    hide Shift, Carry, Half, Add;
    ShiftIs(a);
    ShiftIs(b);
    ShiftIs(Add(a, b));
    CarryAdds(a, b);
    HalfAdds(a, b);
    AddRegroups(Half(a), Half(b), Carry(a), Carry(b));
  }

  lemma {:induction false} ShiftBitsAdds(a: bv32, b: bv32, n: nat)
    ensures ShiftBits(Add(a, b), n) == Add(ShiftBits(a, n), ShiftBits(b, n))
  {
    hide Shift, Add;
    if n > 0 {
      ShiftBitsAdds(a, b, n - 1);
      ShiftAdds(ShiftBits(a, n - 1), ShiftBits(b, n - 1));
    }
  }

  lemma {:induction false} ShiftBitsJoin(a: bv32, m: nat, n: nat)
    ensures ShiftBits(ShiftBits(a, m), n) == ShiftBits(a, m + n)
  {
    hide Shift;
    if n > 0 { ShiftBitsJoin(a, m, n - 1); }
  }

  /** Eight shifts bring a register down whose low byte is zero. */
  lemma HighBytesMoveDown(y: bv32)
    requires y & 0xff == 0
    ensures ShiftBits(y, 8) == y >> 8
  {
    assert ShiftBits(y, 1) == y >> 1;
    assert ShiftBits(y, 2) == y >> 2;
    assert ShiftBits(y, 3) == y >> 3;
    assert ShiftBits(y, 4) == y >> 4;
    assert ShiftBits(y, 5) == y >> 5;
    assert ShiftBits(y, 6) == y >> 6;
    assert ShiftBits(y, 7) == y >> 7;
  }

  function High(l: bv32): bv32 { l & 0xffff_ff00 }

  lemma HighIsHigh(l: bv32)
    ensures High(l) & 0xff == 0 && High(l) >> 8 == Down(l)
  {
  }

  lemma LowAndHigh(l: bv32)
    ensures Add(Low(l), High(l)) == l
  {
  }

  /** The byte step is eight shifts of the register with the byte added in. */
  lemma StepIs(l: bv32, b: Byte)
    ensures Step(l, b) == ShiftBits(Add(l, Bits(b)), 8)
  {
    hide Add, Low, High, Down, Shift, ShiftBits, Bits;
    ByteAdded(l, b);
    var x := Add(l, Bits(b));
    LowAndHigh(x);
    ShiftBitsAdds(Low(x), High(x), 8);
    HighIsHigh(x);
    HighBytesMoveDown(High(x));
  }

  lemma ByteAdded(l: bv32, b: Byte)
    ensures var x := Add(l, Bits(b)); Step(l, b) == Add(ShiftBits(Low(x), 8), Down(x))
  {
    hide ShiftBits, Bits, Low, Down, Add;
    LowByte(l, b);
  }

  /** A byte only touches the low byte of the register. */
  lemma LowByte(l: bv32, b: Byte)
    ensures Add(Low(l), Bits(b)) == Low(Add(l, Bits(b))) && Down(l) == Down(Add(l, Bits(b)))
  {
    LowByteBits(l, b as bv8);
  }

  lemma LowByteBits(l: bv32, b: bv8)
    ensures var x := l ^ (b as bv32); (l & 0xff) ^ (b as bv32) == x & 0xff && l >> 8 == x >> 8
  {
  }

  // Words and strides

  /** The register after `n` more zero bytes. */
  function Zeros(l: bv32, n: nat): bv32 { ShiftBits(l, 8 * n) }

  lemma ZerosAdd(a: bv32, b: bv32, n: nat)
    ensures Zeros(Add(a, b), n) == Add(Zeros(a, n), Zeros(b, n))
  {
    ShiftBitsAdds(a, b, 8 * n);
  }

  lemma ZerosJoin(a: bv32, m: nat, n: nat)
    ensures Zeros(Zeros(a, m), n) == Zeros(a, m + n)
  {
    ShiftBitsJoin(a, 8 * m, 8 * n);
  }

  /** ReadUint32LE: four bytes, the lowest first. */
  function Word(b0: Byte, b1: Byte, b2: Byte, b3: Byte): bv32 {
    Add(Bits(b0), Add(Bits(b1) << 8, Add(Bits(b2) << 16, Bits(b3) << 24)))
  }

  lemma WordIsOr(b0: Byte, b1: Byte, b2: Byte, b3: Byte)
    ensures Word(b0, b1, b2, b3) == Bits(b0) | (Bits(b1) << 8) | (Bits(b2) << 16) | (Bits(b3) << 24)
  {
    OrIsAdd(b0 as bv8, b1 as bv8, b2 as bv8, b3 as bv8);
  }

  lemma OrIsAdd(a: bv8, b: bv8, c: bv8, d: bv8)
    ensures (a as bv32) ^ (((b as bv32) << 8) ^ (((c as bv32) << 16) ^ ((d as bv32) << 24)))
            == (a as bv32) | ((b as bv32) << 8) | ((c as bv32) << 16) | ((d as bv32) << 24)
  {
  }

  /** A byte in a higher lane comes down when the lanes below have been shifted out. */
  lemma LaneComesDown(b: Byte)
    ensures Zeros(Bits(b) << 8, 1) == Bits(b) && Zeros(Bits(b) << 16, 2) == Bits(b)
    ensures Zeros(Bits(b) << 24, 3) == Bits(b)
  {
    hide Bits, Shift;
    LaneBits(b);
    HighBytesMoveDown(Bits(b) << 8);
    HighBytesMoveDown(Bits(b) << 16);
    HighBytesMoveDown(Bits(b) << 24);
    ShiftBitsJoin(Bits(b) << 16, 8, 8);
    ShiftBitsJoin(Bits(b) << 24, 8, 16);
    ShiftBitsJoin(Bits(b) << 16, 8, 8);
  }

  lemma LaneBits(b: Byte)
    ensures var x := Bits(b);
            && (x << 8) & 0xff == 0 && (x << 8) >> 8 == x && (x << 16) & 0xff == 0 && (x << 16) >> 8 == x << 8
            && (x << 24) & 0xff == 0 && (x << 24) >> 8 == x << 16
  {
    LaneBits8(b as bv8);
  }

  lemma LaneBits8(b: bv8)
    ensures var x := b as bv32;
            && (x << 8) & 0xff == 0 && (x << 8) >> 8 == x && (x << 16) & 0xff == 0 && (x << 16) >> 8 == x << 8
            && (x << 24) & 0xff == 0 && (x << 24) >> 8 == x << 16
  {
  }

  /** Four byte steps are 32 shifts of the register with the word added in. */
  lemma WordStep(l: bv32, b0: Byte, b1: Byte, b2: Byte, b3: Byte)
    ensures Fold(l, [b0, b1, b2, b3]) == Zeros(Add(l, Word(b0, b1, b2, b3)), 4)
  {
    hide Add, Bits, Shift, ShiftBits, Step, Fold;
    FoldFour(l, b0, b1, b2, b3);
    LaneComesDown(b1);
    LaneComesDown(b2);
    LaneComesDown(b3);
    var x1, x2, x3 := Bits(b1) << 8, Bits(b2) << 16, Bits(b3) << 24;
    StepAhead(l, b0, 0);
    var s0 := Add(l, Bits(b0));
    StepOn(s0, b1, x1, 1);
    var s1 := Add(s0, x1);
    StepOn(s1, b2, x2, 2);
    var s2 := Add(s1, x2);
    StepOn(s2, b3, x3, 3);
    AddAssociates(l, Bits(b0), Add(x1, Add(x2, x3)));
    AddAssociates(s0, x1, Add(x2, x3));
    AddAssociates(s1, x2, x3);
  }

  lemma FoldFour(l: bv32, b0: Byte, b1: Byte, b2: Byte, b3: Byte)
    ensures Fold(l, [b0, b1, b2, b3]) == Step(Step(Step(Step(l, b0), b1), b2), b3)
  {
    hide Step;
    assert [b0, b1, b2, b3][..3] == [b0, b1, b2] && [b0, b1, b2][..2] == [b0, b1] && [b0, b1][..1] == [b0];
    assert Fold(l, [b0]) == Step(Fold(l, []), b0);
    assert Fold(l, [b0, b1]) == Step(Fold(l, [b0]), b1);
    assert Fold(l, [b0, b1, b2]) == Step(Fold(l, [b0, b1]), b2);
  }

  lemma StepAhead(l: bv32, b: Byte, n: nat)
    requires n == 0
    ensures Step(l, b) == Zeros(Add(l, Bits(b)), 1)
  {
    StepIs(l, b);
  }

  /** A byte step after `n` bytes: the byte may as well have been added in its lane before. */
  lemma StepOn(s: bv32, b: Byte, lane: bv32, n: nat)
    requires 1 <= n <= 3 && Zeros(lane, n) == Bits(b)
    ensures Step(Zeros(s, n), b) == Zeros(Add(s, lane), n + 1)
  {
    hide Add, Bits, Shift, ShiftBits, Step;
    StepIs(Zeros(s, n), b);
    ZerosAdd(s, lane, n);
    ZerosJoin(Add(s, lane), n, 1);
  }

  /** What four partial registers, each a word apart, amount to. */
  function Combined(c0: bv32, c1: bv32, c2: bv32, c3: bv32): bv32 {
    Add(Add(Zeros(c0, 16), Zeros(c1, 12)), Add(Zeros(c2, 8), Zeros(c3, 4)))
  }

  lemma CombinedAdds(a0: bv32, a1: bv32, a2: bv32, a3: bv32, b0: bv32, b1: bv32, b2: bv32, b3: bv32)
    ensures Combined(Add(a0, b0), Add(a1, b1), Add(a2, b2), Add(a3, b3))
            == Add(Combined(a0, a1, a2, a3), Combined(b0, b1, b2, b3))
  {
    hide Add, Zeros;
    ZerosAdd(a0, b0, 16);
    ZerosAdd(a1, b1, 12);
    ZerosAdd(a2, b2, 8);
    ZerosAdd(a3, b3, 4);
    AddRegroups(Zeros(a0, 16), Zeros(b0, 16), Zeros(a1, 12), Zeros(b1, 12));
    AddRegroups(Zeros(a2, 8), Zeros(b2, 8), Zeros(a3, 4), Zeros(b3, 4));
    AddRegroups(Add(Zeros(a0, 16), Zeros(a1, 12)), Add(Zeros(b0, 16), Zeros(b1, 12)),
                Add(Zeros(a2, 8), Zeros(a3, 4)), Add(Zeros(b2, 8), Zeros(b3, 4)));
  }

  lemma ZerosOfCombined(c0: bv32, c1: bv32, c2: bv32, c3: bv32, n: nat)
    ensures Zeros(Combined(c0, c1, c2, c3), n)
            == Add(Add(Zeros(c0, 16 + n), Zeros(c1, 12 + n)), Add(Zeros(c2, 8 + n), Zeros(c3, 4 + n)))
  {
    hide Add, Zeros;
    ZerosAdd(Add(Zeros(c0, 16), Zeros(c1, 12)), Add(Zeros(c2, 8), Zeros(c3, 4)), n);
    ZerosAdd(Zeros(c0, 16), Zeros(c1, 12), n);
    ZerosAdd(Zeros(c2, 8), Zeros(c3, 4), n);
    ZerosJoin(c0, 16, n);
    ZerosJoin(c1, 12, n);
    ZerosJoin(c2, 8, n);
    ZerosJoin(c3, 4, n);
  }

  /** The register after four words. */
  function FourWords(r: bv32, w0: bv32, w1: bv32, w2: bv32, w3: bv32): bv32 {
    Zeros(Add(Zeros(Add(Zeros(Add(Zeros(Add(r, w0), 4), w1), 4), w2), 4), w3), 4)
  }

  lemma FourWordsCombine(r: bv32, w0: bv32, w1: bv32, w2: bv32, w3: bv32)
    ensures FourWords(r, w0, w1, w2, w3) == Combined(Add(r, w0), w1, w2, w3)
  {
    hide Add, Zeros;
    var x := Add(r, w0);
    ZerosAdd(Zeros(x, 4), w1, 4);
    ZerosJoin(x, 4, 4);
    var y := Add(Zeros(x, 8), Zeros(w1, 4));
    ZerosAdd(y, w2, 4);
    ZerosAdd(Zeros(x, 8), Zeros(w1, 4), 4);
    ZerosJoin(x, 8, 4);
    ZerosJoin(w1, 4, 4);
    var z := Add(Add(Zeros(x, 12), Zeros(w1, 8)), Zeros(w2, 4));
    ZerosAdd(z, w3, 4);
    ZerosAdd(Add(Zeros(x, 12), Zeros(w1, 8)), Zeros(w2, 4), 4);
    ZerosAdd(Zeros(x, 12), Zeros(w1, 8), 4);
    ZerosJoin(x, 12, 4);
    ZerosJoin(w1, 8, 4);
    ZerosJoin(w2, 4, 4);
    AddAssociates(Add(Zeros(x, 16), Zeros(w1, 12)), Zeros(w2, 8), Zeros(w3, 4));
  }

  /** One more swath: every partial register moves past sixteen bytes and takes up its next word. */
  lemma NextSwath(c0: bv32, c1: bv32, c2: bv32, c3: bv32, w0: bv32, w1: bv32, w2: bv32, w3: bv32)
    ensures FourWords(Combined(c0, c1, c2, c3), w0, w1, w2, w3)
            == Combined(Add(w0, Zeros(c0, 16)), Add(w1, Zeros(c1, 16)), Add(w2, Zeros(c2, 16)), Add(w3, Zeros(c3, 16)))
  {
    hide Add, Zeros;
    var r := Combined(c0, c1, c2, c3);
    var z0, z1, z2, z3 := Zeros(c0, 16), Zeros(c1, 16), Zeros(c2, 16), Zeros(c3, 16);
    FourWordsCombine(r, w0, w1, w2, w3);
    ZerosOfCombined(c0, c1, c2, c3, 16);
    ZerosJoin(c0, 16, 16);
    ZerosJoin(c1, 16, 12);
    ZerosJoin(c2, 16, 8);
    ZerosJoin(c3, 16, 4);
    assert Combined(z0, z1, z2, z3) == Zeros(r, 16);
    CombinedAdds(w0, w1, w2, w3, z0, z1, z2, z3);
    ZerosAdd(r, w0, 16);
    TakeFirst(Zeros(r, 16), Zeros(w0, 16), Zeros(w1, 12), Add(Zeros(w2, 8), Zeros(w3, 4)));
  }

  lemma TakeFirst(r: bv32, a: bv32, b: bv32, c: bv32)
    ensures Add(Add(Add(r, a), b), c) == Add(Add(Add(a, b), c), r)
  {
    hide Add;
    AddAssociates(r, a, b);
    AddAssociates(r, Add(a, b), c);
    AddCommutes(r, Add(Add(a, b), c));
  }

  /** One more word: the first partial register becomes the last. */
  lemma NextWord(c0: bv32, c1: bv32, c2: bv32, c3: bv32, w: bv32)
    ensures Zeros(Add(Combined(c0, c1, c2, c3), w), 4) == Combined(c1, c2, c3, Add(w, Zeros(c0, 16)))
  {
    hide Add, Zeros;
    ZerosAdd(Combined(c0, c1, c2, c3), w, 4);
    ZerosOfCombined(c0, c1, c2, c3, 4);
    ZerosAdd(w, Zeros(c0, 16), 4);
    ZerosJoin(c0, 16, 4);
    Rotate(Zeros(c0, 20), Zeros(c1, 16), Zeros(c2, 12), Zeros(c3, 8), Zeros(w, 4));
  }

  lemma Rotate(a: bv32, b: bv32, c: bv32, d: bv32, e: bv32)
    ensures Add(Add(Add(a, b), Add(c, d)), e) == Add(Add(b, c), Add(d, Add(e, a)))
  {
    hide Add;
    AddAssociates(a, b, Add(c, d));
    AddAssociates(b, c, d);
    AddAssociates(a, Add(b, Add(c, d)), e);
    AddCommutes(a, Add(Add(Add(b, c), d), e));
    AddAssociates(Add(b, c), d, e);
    AddAssociates(Add(b, c), Add(d, e), a);
    AddAssociates(d, e, a);
  }

  // The code

  /** kStrideExtensionTable3 to 0: one byte of a register, in its lane, advanced past sixteen zero bytes. */
  function StrideTable(lane: nat, b: bv32): bv32
    requires lane < 4
  {
    Zeros(if lane == 0 then b else if lane == 1 then b << 8 else if lane == 2 then b << 16 else b << 24, 16)
  }

  function Advance(c: bv32): bv32 {
    Add(Add(StrideTable(0, c & 0xff), StrideTable(1, (c >> 8) & 0xff)),
        Add(StrideTable(2, (c >> 16) & 0xff), StrideTable(3, c >> 24)))
  }

  lemma Lanes(c: bv32)
    ensures Add(Add(c & 0xff, ((c >> 8) & 0xff) << 8), Add(((c >> 16) & 0xff) << 16, (c >> 24) << 24)) == c
  {
  }

  lemma AdvanceIs(c: bv32)
    ensures Advance(c) == Zeros(c, 16)
  {
    hide Add, Zeros;
    var x0, x1, x2, x3 := c & 0xff, ((c >> 8) & 0xff) << 8, ((c >> 16) & 0xff) << 16, (c >> 24) << 24;
    Lanes(c);
    ZerosAdd(Add(x0, x1), Add(x2, x3), 16);
    ZerosAdd(x0, x1, 16);
    ZerosAdd(x2, x3, 16);
  }

  function WordAt(data: Bytes, p: nat): bv32
    requires p + 4 <= |data|
  {
    Word(data[p], data[p + 1], data[p + 2], data[p + 3])
  }

  /** STEP1. */
  lemma FoldByte(l: bv32, data: Bytes, p: nat)
    requires p < |data|
    ensures Fold(l, data[..p + 1]) == Step(Fold(l, data[..p]), data[p])
  {
    hide Step;
    assert data[..p + 1][..p] == data[..p];
  }

  lemma FoldWord(l: bv32, data: Bytes, p: nat)
    requires p + 4 <= |data|
    ensures Fold(l, data[..p + 4]) == Zeros(Add(Fold(l, data[..p]), WordAt(data, p)), 4)
  {
    hide Step, Zeros, Add, Fold;
    assert data[..p + 4] == data[..p] + [data[p], data[p + 1], data[p + 2], data[p + 3]];
    FoldJoins(l, data[..p], [data[p], data[p + 1], data[p + 2], data[p + 3]]);
    WordStep(Fold(l, data[..p]), data[p], data[p + 1], data[p + 2], data[p + 3]);
  }

  lemma FoldSwath(l: bv32, data: Bytes, p: nat)
    requires p + 16 <= |data|
    ensures Fold(l, data[..p + 16])
            == FourWords(Fold(l, data[..p]), WordAt(data, p), WordAt(data, p + 4), WordAt(data, p + 8), WordAt(data, p + 12))
  {
    hide Zeros, Add, Fold, WordAt;
    FoldWord(l, data, p);
    FoldWord(l, data, p + 4);
    FoldWord(l, data, p + 8);
    FoldWord(l, data, p + 12);
  }

  /** STEP4W: four byte steps over a word already loaded. */
  method CombineWord(l: bv32, w: bv32) returns (r: bv32)
    ensures r == Zeros(Add(l, w), 4)
  {
    hide Add, Shift, ShiftBits;
    AddCommutes(w, l);
    r := Add(w, l);
    ghost var x := r;
    NoShift(x);
    for i := 0 to 4
      invariant r == ShiftBits(x, 8 * i)
    {
      TableStep(r);
      ShiftBitsJoin(x, 8 * i, 8);
      r := Add(Down(r), ByteTable(Low(r)));
    }
  }

  lemma NoShift(x: bv32)
    ensures ShiftBits(x, 0) == x
  {
  }

  lemma TableStep(w: bv32)
    ensures Add(Down(w), ByteTable(Low(w))) == ShiftBits(w, 8)
  {
    hide Add, Low, High, Down, Shift, ShiftBits;
    LowAndHigh(w);
    ShiftBitsAdds(Low(w), High(w), 8);
    HighIsHigh(w);
    HighBytesMoveDown(High(w));
    AddCommutes(Down(w), ByteTable(Low(w)));
  }

  /**
   * The portable Extend, for data at any alignment: bytes up to the first aligned word, then four strides of words at
   * once, then the rest. Its result is that of the byte-at-a-time CRC.
   */
  method ExtendStrided(crc: bv32, data: Bytes, address: nat) returns (r: bv32)
    ensures r == Extend(crc, data)
  {
    hide Add, Fold, Zeros, Step, WordAt, Combined;
    var l0 := crc ^ ONES;
    var l := l0;
    var p: nat := 0;
    var head := (4 - address % 4) % 4;
    assert data[..0] == [];
    FoldNothing(l0);
    if head <= |data| {
      while p < head
        invariant p <= head && l == Fold(l0, data[..p])
      {
        FoldByte(l0, data, p);
        l := Step(l, data[p]);
        p := p + 1;
      }
    }
    if |data| - p >= 16 {
      l, p := Strides(l0, l, data, p);
    }
    while p < |data|
      invariant p <= |data| && l == Fold(l0, data[..p])
    {
      FoldByte(l0, data, p);
      l := Step(l, data[p]);
      p := p + 1;
    }
    assert data[..|data|] == data;
    r := l ^ ONES;
  }

  lemma FoldNothing(l: bv32)
    ensures Fold(l, []) == l
  {
  }

  method Strides(l0: bv32, l: bv32, data: Bytes, start: nat) returns (r: bv32, p: nat)
    requires start + 16 <= |data| && l == Fold(l0, data[..start])
    ensures p <= |data| && r == Fold(l0, data[..p])
  {
    hide Add, Fold, Zeros, WordAt, Combined;
    p := start;
    FoldSwath(l0, data, p);
    FourWordsCombine(l, WordAt(data, p), WordAt(data, p + 4), WordAt(data, p + 8), WordAt(data, p + 12));
    AddCommutes(WordAt(data, p), l);
    var c0, c1, c2, c3 := Add(WordAt(data, p), l), WordAt(data, p + 4), WordAt(data, p + 8), WordAt(data, p + 12);
    p := p + 16;
    while |data| - p >= 16
      invariant p <= |data| && Fold(l0, data[..p]) == Combined(c0, c1, c2, c3)
      decreases |data| - p
    {
      FoldSwath(l0, data, p);
      NextSwath(c0, c1, c2, c3, WordAt(data, p), WordAt(data, p + 4), WordAt(data, p + 8), WordAt(data, p + 12));
      c0 := Advanced(WordAt(data, p), c0);
      c1 := Advanced(WordAt(data, p + 4), c1);
      c2 := Advanced(WordAt(data, p + 8), c2);
      c3 := Advanced(WordAt(data, p + 12), c3);
      p := p + 16;
    }
    while |data| - p >= 4
      invariant p <= |data| && Fold(l0, data[..p]) == Combined(c0, c1, c2, c3)
      decreases |data| - p
    {
      FoldWord(l0, data, p);
      NextWord(c0, c1, c2, c3, WordAt(data, p));
      var next := Advanced(WordAt(data, p), c0);
      c0, c1, c2, c3 := c1, c2, c3, next;
      p := p + 4;
    }
    FourWordsCombine(0, c0, c1, c2, c3);
    AddZero(c0);
    r := 0;
    r := CombineWord(r, c0);
    r := CombineWord(r, c1);
    r := CombineWord(r, c2);
    r := CombineWord(r, c3);
  }

  /** STEP4: one stride takes up its next word. */
  method Advanced(word: bv32, c: bv32) returns (r: bv32)
    ensures r == Add(word, Zeros(c, 16))
  {
    AdvanceIs(c);
    r := Add(word, Advance(c));
  }
}
