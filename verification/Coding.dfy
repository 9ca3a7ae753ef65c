/** Fixed-width and variable-length integers and length-prefixed strings (util/coding.h, util/coding.cc). */
module Coding {
  import opened Wrappers
  import opened InternalKeys

  const TWO_32: nat := 0x1_0000_0000
  const TWO_64: nat := 0x1_0000_0000_0000_0000

  type U32 = x: nat | x < TWO_32
  type U64 = x: nat | x < TWO_64

  /** What is read from the front of some input, and what is left of it. */
  datatype Parsed<+T> = Parsed(value: T, rest: Bytes)

  function Power(base: nat, n: nat): nat {
    if n == 0 then 1 else base * Power(base, n - 1)
  }

  /** The low `n` bytes of `v`, the lowest first. */
  function Fixed(v: nat, n: nat): (b: Bytes)
    ensures |b| == n
  {
    if n == 0 then [] else [v % 256] + Fixed(v / 256, n - 1)
  }

  function DecodeFixed(b: Bytes): nat {
    if b == [] then 0 else b[0] + 256 * DecodeFixed(b[1..])
  }

  lemma {:induction false} FixedRoundTrip(v: nat, n: nat)
    requires v < Power(256, n)
    ensures DecodeFixed(Fixed(v, n)) == v
  {
    if n > 0 {
      FixedRoundTrip(v / 256, n - 1);
      assert Fixed(v, n)[1..] == Fixed(v / 256, n - 1);
    }
  }

  lemma {:induction false} DecodeFixedBound(b: Bytes)
    ensures DecodeFixed(b) < Power(256, |b|)
  {
    if b != [] { DecodeFixedBound(b[1..]); }
  }

  lemma Powers()
    ensures Power(256, 4) == TWO_32 && Power(256, 8) == TWO_64
  {
    assert Power(256, 2) == 65536 && Power(256, 4) == 65536 * Power(256, 2);
    assert Power(256, 6) == 65536 * Power(256, 4) && Power(256, 8) == 65536 * Power(256, 6);
  }

  /** Five varint bytes hold 32 bits and ten hold 64. */
  lemma VarintPowers()
    ensures Power(128, 5) == 0x8_0000_0000 && Power(128, 10) == 0x40_0000_0000_0000_0000
  {
    assert Power(128, 2) == 16384 && Power(128, 4) == 16384 * Power(128, 2) && Power(128, 5) == 128 * Power(128, 4);
    assert Power(128, 7) == 16384 * Power(128, 5) && Power(128, 9) == 16384 * Power(128, 7);
    assert Power(128, 10) == 128 * Power(128, 9);
  }

  function Fixed32(v: U32): Bytes { Fixed(v, 4) }

  function Fixed64(v: U64): Bytes { Fixed(v, 8) }

  lemma FixedInverts(v: U32, w: U64)
    ensures DecodeFixed(Fixed32(v)) == v && DecodeFixed(Fixed64(w)) == w
  {
    Powers();
    FixedRoundTrip(v, 4);
    FixedRoundTrip(w, 8);
  }

  /** Seven bits a byte, the lowest first; every byte but the last has its high bit set. */
  function Varint(v: nat): (b: Bytes)
    ensures b != []
  {
    if v < 128 then [v] else [128 + v % 128] + Varint(v / 128)
  }

  /** Reads at most `max` bytes. */
  function DecodeVarint(b: Bytes, max: nat): Option<Parsed<nat>> {
    if b == [] || max == 0 then None
    else if b[0] < 128 then Some(Parsed(b[0], b[1..]))
    else
      match DecodeVarint(b[1..], max - 1)
      case None => None
      case Some(p) => Some(Parsed(b[0] - 128 + 128 * p.value, p.rest))
  }

  /** The value is cut to 32 bits, as the shifts in the code cut it. */
  function GetVarint32(b: Bytes): Option<Parsed<U32>> {
    match DecodeVarint(b, 5)
    case None => None
    case Some(p) => Some(Parsed(p.value % TWO_32, p.rest))
  }

  function GetVarint64(b: Bytes): Option<Parsed<U64>> {
    match DecodeVarint(b, 10)
    case None => None
    case Some(p) => Some(Parsed(p.value % TWO_64, p.rest))
  }

  lemma {:induction false} VarintRoundTrip(v: nat, max: nat, rest: Bytes)
    requires 0 < max && v < Power(128, max)
    ensures DecodeVarint(Varint(v) + rest, max) == Some(Parsed(v, rest))
  {
    if v < 128 {
      assert Varint(v) + rest == [v] + rest && ([v] + rest)[1..] == rest;
    } else {
      assert Power(128, 1) == 128;
      VarintRoundTrip(v / 128, max - 1, rest);
      assert (Varint(v) + rest)[1..] == Varint(v / 128) + rest;
    }
  }

  lemma VarintRead(v: nat, max: nat, modulus: nat, rest: Bytes)
    requires 0 < max && v < Power(128, max) && v < modulus
    ensures var d := DecodeVarint(Varint(v) + rest, max);
            d.Some? && d.value.value % modulus == v && d.value.rest == rest
  {
    hide Power, Varint, DecodeVarint;
    VarintRoundTrip(v, max, rest);
    Below(v, modulus);
  }

  lemma Below(v: nat, modulus: nat)
    requires v < modulus
    ensures v % modulus == v
  {
  }

  lemma Varint32RoundTrip(v: U32, rest: Bytes)
    ensures GetVarint32(Varint(v) + rest) == Some(Parsed(v, rest))
  {
    VarintPowers();
    VarintRead(v, 5, TWO_32, rest);
  }

  lemma Varint64RoundTrip(v: U64, rest: Bytes)
    ensures GetVarint64(Varint(v) + rest) == Some(Parsed(v, rest))
  {
    VarintPowers();
    VarintRead(v, 10, TWO_64, rest);
  }

  /** A string behind its length. */
  function LengthPrefixed(s: Bytes): Bytes
    requires |s| < TWO_32
  {
    Varint(|s|) + s
  }

  function GetLengthPrefixed(b: Bytes): Option<Parsed<Bytes>> {
    match GetVarint32(b)
    case None => None
    case Some(p) =>
      if |p.rest| >= p.value then Some(Parsed(p.rest[..p.value], p.rest[p.value..])) else None
  }

  lemma LengthPrefixedRoundTrip(s: Bytes, rest: Bytes)
    requires |s| < TWO_32
    ensures GetLengthPrefixed(LengthPrefixed(s) + rest) == Some(Parsed(s, rest))
  {
    Varint32RoundTrip(|s|, s + rest);
    assert LengthPrefixed(s) + rest == Varint(|s|) + (s + rest);
    assert (s + rest)[..|s|] == s && (s + rest)[|s|..] == rest;
  }

  lemma {:induction false} DecodeVarintConsumes(b: Bytes, max: nat)
    ensures var r := DecodeVarint(b, max); r.Some? ==> |r.value.rest| < |b|
  {
    if b != [] && max > 0 && b[0] >= 128 { DecodeVarintConsumes(b[1..], max - 1); }
  }

  // The code

  /** EncodeVarint64: the loop over the bits left. */
  method PutVarint64(dst: Bytes, v: U64) returns (r: Bytes)
    ensures r == dst + Varint(v)
  {
    r := dst;
    var left: nat := v;
    while left >= 128
      invariant r + Varint(left) == dst + Varint(v)
    {
      r, left := r + [128 + left % 128], left / 128;
    }
    r := r + [left];
  }

  /** EncodeVarint32, written out for each length. */
  method PutVarint32(dst: Bytes, v: U32) returns (r: Bytes)
    ensures r == dst + Varint(v)
  {
    if v < 0x80 {
      r := dst + [v];
    } else if v < 0x4000 {
      r := dst + [128 + v % 128, v / 0x80];
    } else if v < 0x20_0000 {
      r := dst + [128 + v % 128, 128 + v / 0x80 % 128, v / 0x4000];
    } else if v < 0x1000_0000 {
      r := dst + [128 + v % 128, 128 + v / 0x80 % 128, 128 + v / 0x4000 % 128, v / 0x20_0000];
    } else {
      r := dst + [128 + v % 128, 128 + v / 0x80 % 128, 128 + v / 0x4000 % 128, 128 + v / 0x20_0000 % 128, v / 0x1000_0000];
    }
    Shifts(v);
    Unrolled(v, v / 0x80, v / 0x4000, v / 0x20_0000, v / 0x1000_0000);
  }

  lemma Shifts(v: nat)
    ensures v / 0x80 / 128 == v / 0x4000 && v / 0x4000 / 128 == v / 0x20_0000 && v / 0x20_0000 / 128 == v / 0x1000_0000
  {
  }

  /** At most five bytes. */
  lemma Unrolled(v: nat, a: nat, b: nat, c: nat, d: nat)
    requires a == v / 128 && b == a / 128 && c == b / 128 && d == c / 128 && d < 128
    ensures Varint(v) ==
            if v < 128 then [v]
            else if a < 128 then [128 + v % 128, a]
            else if b < 128 then [128 + v % 128, 128 + a % 128, b]
            else if c < 128 then [128 + v % 128, 128 + a % 128, 128 + b % 128, c]
            else [128 + v % 128, 128 + a % 128, 128 + b % 128, 128 + c % 128, d]
  {
    if v >= 128 {
      UnrolledBelow(a, b, c, d);
    }
  }

  lemma UnrolledBelow(a: nat, b: nat, c: nat, d: nat)
    requires b == a / 128 && c == b / 128 && d == c / 128 && d < 128
    ensures Varint(a) ==
            if a < 128 then [a]
            else if b < 128 then [128 + a % 128, b]
            else if c < 128 then [128 + a % 128, 128 + b % 128, c]
            else [128 + a % 128, 128 + b % 128, 128 + c % 128, d]
  {
    assert Varint(c) == if c < 128 then [c] else [128 + c % 128, d];
    if b >= 128 { assert Varint(b) == [128 + b % 128] + Varint(c); }
    if a >= 128 { assert Varint(a) == [128 + a % 128] + Varint(b); }
  }

  /** The bytes from `i` on stand for what is missing from `result`. */
  ghost predicate ReadSoFar(b: Bytes, max: nat, i: nat, result: nat, scale: nat)
    requires i <= max && i <= |b|
  {
    var d, left := DecodeVarint(b, max), DecodeVarint(b[i..], max - i);
    if left.None? then d.None?
    else d.Some? && d.value.rest == left.value.rest && d.value.value == result + scale * left.value.value
  }

  lemma ReadOn(b: Bytes, max: nat, i: nat, result: nat, scale: nat)
    requires i < max && i < |b| && ReadSoFar(b, max, i, result, scale)
    ensures b[i] >= 128 ==> ReadSoFar(b, max, i + 1, result + scale * (b[i] - 128), scale * 128)
    ensures b[i] < 128 ==> DecodeVarint(b, max) == Some(Parsed(result + scale * b[i], b[i + 1..]))
  {
    assert b[i..][1..] == b[i + 1..];
    var left := DecodeVarint(b[i + 1..], max - i - 1);
    if b[i] >= 128 && left.Some? { Distributes(scale, b[i] - 128, left.value.value); }
  }

  lemma Distributes(scale: nat, x: nat, y: nat)
    ensures scale * (x + 128 * y) == scale * x + scale * 128 * y
  {
  }

  /** GetVarint32PtrFallback and GetVarint64Ptr: adds seven bits a byte; `scale` is two to the power of the shift. */
  method ReadVarint(b: Bytes, max: nat, modulus: nat) returns (r: Option<Parsed<nat>>)
    requires modulus > 0
    ensures var d := DecodeVarint(b, max);
            r == if d.None? then None else Some(Parsed(d.value.value % modulus, d.value.rest))
  {
    var result: nat, scale: nat, i: nat := 0, 1, 0;
    while i < max && i < |b|
      invariant 0 <= i <= max && i <= |b| && ReadSoFar(b, max, i, result, scale)
    {
      ReadOn(b, max, i, result, scale);
      if b[i] < 128 {
        return Some(Parsed((result + scale * b[i]) % modulus, b[i + 1..]));
      }
      result, scale := result + scale * (b[i] - 128), scale * 128;
      i := i + 1;
    }
    r := None;
  }
}
