/** Bloom filters without false negatives (util/bloom.cc). The hash may be any function. */
module Bloom {
  import opened InternalKeys
  import opened Coding

  type Hash = Bytes -> U32

  // Bits of a byte

  /** 1 << k. */
  function Mask(k: nat): bv8
    requires k < 8
  {
    if k == 0 then 1 else if k == 1 then 2 else if k == 2 then 4 else if k == 3 then 8
    else if k == 4 then 16 else if k == 5 then 32 else if k == 6 then 64 else 128
  }

  function Bits(b: Byte): bv8 { b as bv8 }

  function FromBits(x: bv8): Byte { x as int }

  function Or(x: bv8, m: bv8): bv8 { x | m }

  predicate Overlap(x: bv8, m: bv8) { x & m != 0 }

  predicate Bit(b: Byte, k: nat)
    requires k < 8
  {
    Overlap(Bits(b), Mask(k))
  }

  function WithBit(b: Byte, k: nat): Byte
    requires k < 8
  {
    FromBits(Or(Bits(b), Mask(k)))
  }

  lemma MasksApart(k: nat, j: nat)
    requires k < 8 && j < 8
    ensures Overlap(Mask(k), Mask(j)) == (k == j)
  {
  }

  lemma OrOverlaps(x: bv8, m: bv8, n: bv8)
    ensures Overlap(Or(x, m), n) == (Overlap(x, n) || Overlap(m, n))
  {
  }

  lemma BackToBits(x: bv8)
    ensures Bits(FromBits(x)) == x
  {
  }

  lemma WithBitKeeps(b: Byte, k: nat, j: nat)
    requires k < 8 && j < 8
    ensures Bit(WithBit(b, k), j) == (Bit(b, j) || j == k)
  {
    hide Mask, Or, Overlap, Bits, FromBits;
    MasksApart(k, j);
    BackToBits(Or(Bits(b), Mask(k)));
    OrOverlaps(Bits(b), Mask(k), Mask(j));
  }

  // Bits of an array

  predicate IsSet(bits: Bytes, p: nat)
    requires p < 8 * |bits|
  {
    Bit(bits[p / 8], p % 8)
  }

  function Set(bits: Bytes, p: nat): Bytes
    requires p < 8 * |bits|
  {
    bits[p / 8 := WithBit(bits[p / 8], p % 8)]
  }

  lemma SetKeeps(bits: Bytes, p: nat, q: nat)
    requires p < 8 * |bits| && q < 8 * |bits|
    ensures |Set(bits, p)| == |bits| && IsSet(Set(bits, p), q) == (IsSet(bits, q) || q == p)
  {
    WithBitKeeps(bits[p / 8], p % 8, q % 8);
  }

  // Probes

  /** The hash rotated right by 17 bits. */
  function Delta(h: U32): U32 { h / 0x2_0000 + h % 0x2_0000 * 0x8000 }

  /** The hash before probe `j`: h += delta, `j` times. */
  function ProbeHash(h: U32, delta: U32, j: nat): U32 {
    if j == 0 then h else (ProbeHash(h, delta, j - 1) + delta) % TWO_32
  }

  function Probe(h: U32, bits: nat, j: nat): (p: nat)
    requires bits > 0
    ensures p < bits
  {
    ProbeHash(h, Delta(h), j) % bits
  }

  /** All probes of a key hit. */
  ghost predicate Hits(bits: Bytes, h: U32, k: nat)
    requires bits != []
  {
    forall j :: 0 <= j < k ==> IsSet(bits, Probe(h, 8 * |bits|, j))
  }

  /** The place is one of the probes of a hash. */
  ghost predicate IsProbe(h: U32, bits: nat, k: nat, p: nat)
    requires bits > 0
  {
    exists j :: 0 <= j < k && Probe(h, bits, j) == p
  }

  /** The place is a probe of one of the keys. */
  ghost predicate IsProbed(hash: Hash, keys: seq<Bytes>, bits: nat, k: nat, p: nat)
    requires bits > 0
  {
    exists key :: key in keys && IsProbe(hash(key), bits, k, p)
  }

  /** All probes of a key are probes of others. */
  ghost predicate AllProbed(hash: Hash, keys: seq<Bytes>, key: Bytes, bits: nat, k: nat)
    requires bits > 0
  {
    forall p: nat :: p < bits && IsProbe(hash(key), bits, k, p) ==> IsProbed(hash, keys, bits, k, p)
  }

  /** The bits set are the probes of the keys: all of them, and no others. */
  ghost predicate IsFilter(hash: Hash, keys: seq<Bytes>, bits: Bytes, k: nat) {
    bits != [] && forall p: nat :: p < 8 * |bits| ==> (IsSet(bits, p) <==> IsProbed(hash, keys, 8 * |bits|, k, p))
  }

  /** `bitsPerKey` bits for each key, 64 at least, and up to whole bytes. */
  method CreateFilter(hash: Hash, bitsPerKey: nat, k: nat, keys: seq<Bytes>, dst: Bytes) returns (r: Bytes)
    requires 1 <= k <= 30
    ensures dst <= r && |r| >= |dst| + 2 && r[|r| - 1] == k
    ensures var bits := 8 * (|r| - |dst| - 1); bits >= 64 && |keys| * bitsPerKey <= bits < |keys| * bitsPerKey + 72
    ensures IsFilter(hash, keys, r[|dst|..|r| - 1], k)
  {
    hide IsSet, IsProbed;
    var bits := |keys| * bitsPerKey;
    if bits < 64 { bits := 64; }
    var bytes := (bits + 7) / 8;
    var filter: Bytes := seq(bytes, _ => 0);
    EmptyFilter(hash, filter, k);
    assert keys[..0] == [];
    for i := 0 to |keys|
      invariant |filter| == bytes && IsFilter(hash, keys[..i], filter, k)
    {
      ghost var was := filter;
      filter := AddHash(filter, hash(keys[i]), k);
      OneMoreKey(hash, keys[..i], keys[i], was, filter, k);
      assert keys[..i + 1] == keys[..i] + [keys[i]];
    }
    assert keys[..|keys|] == keys;
    r := dst + filter + [k];
    assert r[|dst|..|r| - 1] == filter;
  }

  /** Sets the bits of one hash; the others stay as they are. */
  method AddHash(filter: Bytes, h0: U32, k: nat) returns (r: Bytes)
    requires filter != []
    ensures |r| == |filter|
    ensures forall p: nat :: p < 8 * |r| ==> (IsSet(r, p) <==> IsSet(filter, p) || IsProbe(h0, 8 * |r|, k, p))
  {
    hide IsSet, Set, IsProbe, Delta, ProbeHash;
    r := filter;
    var h, bits := h0, 8 * |filter|;
    var delta := Delta(h);
    NoProbes(h0, delta, bits);
    for j := 0 to k
      invariant |r| == |filter| && h == ProbeHash(h0, delta, j)
      invariant forall p: nat :: p < bits ==> (IsSet(r, p) <==> IsSet(filter, p) || IsProbe(h0, bits, j, p))
    {
      var p := h % bits;
      ghost var was := r;
      SetKeeps(r, p, p);
      r := Set(r, p);
      forall q: nat | q < bits
        ensures IsSet(r, q) <==> IsSet(filter, q) || IsProbe(h0, bits, j + 1, q)
      {
        SetKeeps(was, p, q);
        OneMoreProbe(h0, bits, j, q);
      }
      h := (h + delta) % TWO_32;
      NextHash(h0, delta, j);
    }
  }

  lemma NextHash(h: U32, delta: U32, j: nat)
    ensures ProbeHash(h, delta, j + 1) == (ProbeHash(h, delta, j) + delta) % TWO_32
  {
  }

  lemma NoProbes(h: U32, delta: U32, bits: nat)
    requires bits > 0
    ensures ProbeHash(h, delta, 0) == h && forall p: nat :: !IsProbe(h, bits, 0, p)
  {
  }

  lemma OneMoreProbe(h: U32, bits: nat, j: nat, p: nat)
    requires bits > 0
    ensures IsProbe(h, bits, j + 1, p) <==> IsProbe(h, bits, j, p) || Probe(h, bits, j) == p
  {
    hide Probe;
    if IsProbe(h, bits, j + 1, p) {
      var i :| 0 <= i < j + 1 && Probe(h, bits, i) == p;
      assert i == j || IsProbe(h, bits, j, p);
    }
  }

  lemma EmptyFilter(hash: Hash, bits: Bytes, k: nat)
    requires bits != [] && forall i :: 0 <= i < |bits| ==> bits[i] == 0
    ensures IsFilter(hash, [], bits, k)
  {
    hide Mask;
    forall p: nat | p < 8 * |bits|
      ensures !IsSet(bits, p)
    {
      NothingOverlaps(Mask(p % 8));
    }
  }

  lemma NothingOverlaps(m: bv8)
    ensures !Overlap(Bits(0), m)
  {
  }

  lemma OneMoreKey(hash: Hash, keys: seq<Bytes>, key: Bytes, was: Bytes, bits: Bytes, k: nat)
    requires IsFilter(hash, keys, was, k) && |bits| == |was|
    requires forall p: nat :: p < 8 * |bits| ==> (IsSet(bits, p) <==> IsSet(was, p) || IsProbe(hash(key), 8 * |bits|, k, p))
    ensures IsFilter(hash, keys + [key], bits, k)
  {
    hide IsSet, IsProbe;
    forall p: nat | p < 8 * |bits|
      ensures IsSet(bits, p) <==> IsProbed(hash, keys + [key], 8 * |bits|, k, p)
    {
      assert IsProbed(hash, keys + [key], 8 * |bits|, k, p)
             <==> IsProbed(hash, keys, 8 * |bits|, k, p) || IsProbe(hash(key), 8 * |bits|, k, p);
    }
  }

  /**
   * A filter matches exactly the keys all probes of which are probes of keys it was made for: so it matches those, and an
   * unlucky other one.
   */
  lemma MatchesExactly(hash: Hash, keys: seq<Bytes>, bits: Bytes, k: Byte, key: Bytes)
    requires IsFilter(hash, keys, bits, k) && k <= 30
    ensures MayMatch(hash, key, bits + [k])
            <==> AllProbed(hash, keys, key, 8 * |bits|, k)
    ensures key in keys ==> MayMatch(hash, key, bits + [k])
  {
    hide IsSet, Probe;
    var filter := bits + [k];
    assert filter[..|filter| - 1] == bits && filter[|filter| - 1] == k;
    if MayMatch(hash, key, filter) {
      forall p: nat | p < 8 * |bits| && IsProbe(hash(key), 8 * |bits|, k, p)
        ensures IsProbed(hash, keys, 8 * |bits|, k, p)
      {
        var j :| 0 <= j < k && Probe(hash(key), 8 * |bits|, j) == p;
        assert IsSet(bits, Probe(hash(key), 8 * |bits|, j));
      }
    }
    if AllProbed(hash, keys, key, 8 * |bits|, k) {
      forall j | 0 <= j < k
        ensures IsSet(bits, Probe(hash(key), 8 * |bits|, j))
      {
        assert IsProbe(hash(key), 8 * |bits|, k, Probe(hash(key), 8 * |bits|, j));
      }
    }
  }

  method KeyMayMatch(hash: Hash, key: Bytes, filter: Bytes) returns (may: bool)
    ensures may == MayMatch(hash, key, filter)
  {
    hide Bit, Delta;
    if |filter| < 2 {
      return false;
    }
    var bits, k := (|filter| - 1) * 8, filter[|filter| - 1];
    if k > 30 {
      return true;
    }
    ghost var probes := filter[..|filter| - 1];
    var h0 := hash(key);
    var h, delta := h0, Delta(h0);
    for j := 0 to k
      invariant h == ProbeHash(h0, delta, j) && Hits(probes, h0, j)
    {
      var p := h % bits;
      assert p == Probe(h0, 8 * |probes|, j);
      if !Bit(filter[p / 8], p % 8) {
        assert !IsSet(probes, p);
        return false;
      }
      h := (h + delta) % TWO_32;
    }
    may := true;
  }

  /** A filter matches a key if all its probes hit, and whenever the filter is of a kind not known. */
  ghost predicate MayMatch(hash: Hash, key: Bytes, filter: Bytes) {
    |filter| >= 2 && (filter[|filter| - 1] > 30 || Hits(filter[..|filter| - 1], hash(key), filter[|filter| - 1]))
  }
}
