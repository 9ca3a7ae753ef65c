/** CRC-32C one byte at a time, and the masking of stored checksums (util/crc32c.h, util/crc32c.cc). */
module Crc32c {
  import opened InternalKeys

  const POLYNOMIAL: bv32 := 0x82f63b78
  const ONES: bv32 := 0xffff_ffff
  const MASK_DELTA: bv32 := 0xa282ead8

  /** The register after one more zero bit. */
  function Shift(l: bv32): bv32 {
    if l & 1 == 1 then (l >> 1) ^ POLYNOMIAL else l >> 1
  }

  function ShiftBits(l: bv32, n: nat): bv32 {
    if n == 0 then l else Shift(ShiftBits(l, n - 1))
  }

  /** The byte extension table: the register after one more zero byte, for a register below 256. */
  function ByteTable(c: bv32): bv32 { ShiftBits(c, 8) }

  function Bits(b: Byte): bv32 { (b as bv8) as bv32 }

  /** Registers add by exclusive or. */
  function Add(a: bv32, b: bv32): bv32 { a ^ b }

  function Low(l: bv32): bv32 { l & 0xff }

  function Down(l: bv32): bv32 { l >> 8 }

  function Step(l: bv32, b: Byte): bv32 {
    Add(ByteTable(Add(Low(l), Bits(b))), Down(l))
  }

  function Fold(l: bv32, data: Bytes): bv32 {
    if data == [] then l else Step(Fold(l, data[..|data| - 1]), data[|data| - 1])
  }

  function Extend(crc: bv32, data: Bytes): bv32 {
    Fold(crc ^ ONES, data) ^ ONES
  }

  function Value(data: Bytes): bv32 { Extend(0, data) }

  lemma {:induction false} FoldJoins(l: bv32, a: Bytes, b: Bytes)
    ensures Fold(l, a + b) == Fold(Fold(l, a), b)
  {
    if b == [] {
      assert a + b == a;
    } else {
      FoldJoins(l, a, b[..|b| - 1]);
      assert (a + b)[..|a + b| - 1] == a + b[..|b| - 1];
    }
  }

  lemma OnesCancel(l: bv32)
    ensures (l ^ ONES) ^ ONES == l
  {
  }

  lemma Register(crc: bv32, data: Bytes)
    ensures Extend(crc, data) ^ ONES == Fold(crc ^ ONES, data)
  {
    OnesCancel(Fold(crc ^ ONES, data));
  }

  /** A checksum may be extended piece by piece. */
  lemma ExtendJoins(crc: bv32, a: Bytes, b: Bytes)
    ensures Extend(Extend(crc, a), b) == Extend(crc, a + b)
  {
    Register(crc, a);
    FoldJoins(crc ^ ONES, a, b);
  }

  function Mask(crc: bv32): bv32 {
    ((crc >> 15) | (crc << 17)) + MASK_DELTA
  }

  function Unmask(masked: bv32): bv32 {
    var rot := masked - MASK_DELTA;
    (rot >> 17) | (rot << 15)
  }

  lemma UnmaskInverts(crc: bv32)
    ensures Unmask(Mask(crc)) == crc
  {
  }

  /** The test of a stored checksum. */
  predicate Matches(stored: nat, data: Bytes)
    requires stored < 0x1_0000_0000
  {
    Unmask(stored as bv32) == Value(data)
  }

  /** Storing a masked checksum as a number loses nothing. */
  lemma StoredMatches(data: Bytes)
    ensures Matches(Mask(Value(data)) as int, data)
  {
    UnmaskInverts(Value(data));
    BackToBits(Mask(Value(data)));
  }

  lemma BackToBits(x: bv32)
    ensures (x as int) as bv32 == x
  {
  }
}
