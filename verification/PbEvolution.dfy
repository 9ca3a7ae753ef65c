/**
 * Decoding what was encoded under other descriptors (pb_decode.c, pb_skip_field): fields that are not known are passed
 * over, so that a message read with some fields left out is the message without them.
 */
module PbEvolution {
  import opened Wrappers
  import opened InternalKeys
  import opened Coding
  import opened PbFieldIter
  import opened PbMessages
  import opened PbRoundTrip

  // Unknown fields

  /** What the encoder writes behind a tag of a wire type. */
  ghost predicate IsWritten(wire: nat, item: Bytes) {
    || (wire == 0 && exists v: nat :: item == Varint(v))
    || (wire == 1 && |item| == 8)
    || (wire == 2 && exists s: Bytes :: |s| < TWO_32 && item == WithLength(s))
    || (wire == 5 && |item| == 4)
  }

  lemma {:induction false} VarintIsSkipped(v: nat, rest: Bytes)
    ensures SkipVarint(Varint(v) + rest) == Some(rest)
  {
    var b := Varint(v) + rest;
    if v < 128 {
      assert b == [v] + rest && b[1..] == rest;
    } else {
      assert b[0] == 128 + v % 128 && b[1..] == Varint(v / 128) + rest;
      VarintIsSkipped(v / 128, rest);
    }
  }

  lemma WrittenIsSkipped(wire: nat, item: Bytes, rest: Bytes)
    requires IsWritten(wire, item)
    ensures Skip(wire, item + rest) == Some(rest)
  {
    if wire == 0 {
      var v: nat :| item == Varint(v);
      VarintIsSkipped(v, rest);
    } else if wire == 2 {
      var s: Bytes :| |s| < TWO_32 && item == WithLength(s);
      ReadStringInverts(s, rest);
    } else {
      assert (item + rest)[|item|..] == rest;
    }
  }

  ghost predicate IsUnknown(fields: seq<Field>, tag: nat) {
    0 < tag < 0x2000_0000 && forall i :: 0 <= i < |fields| ==> fields[i].tag != tag
  }

  lemma UnknownTagIsRead(fields: seq<Field>, wire: nat, tag: nat, body: Bytes)
    requires IsUnknown(fields, tag) && wire < 8
    ensures var t := tag * 8 + wire;
            && 0 < t < TWO_32 && t / 8 == tag && t % 8 == wire && FieldTag(wire, tag) + body != []
            && ReadVarint32(FieldTag(wire, tag) + body) == Some(Parsed(t, body)) && FindField(fields, tag) == None
  {
    hide ReadVarint32, FindField, Varint;
    Read32Inverts(tag * 8 + wire, body);
    NotFound(fields, tag);
  }

  /** A field with a number that is not known changes nothing, whatever its type and wherever it stands. */
  lemma UnknownIsIgnored(fields: seq<Field>, wire: nat, tag: nat, item: Bytes)
    requires IsUnknown(fields, tag) && IsWritten(wire, item)
    ensures Ignored(fields, FieldTag(wire, tag) + item)
  {
    hide IsUnknown, IsWritten, FieldTag, ReadVarint32, FindField, Skip;
    var b := FieldTag(wire, tag) + item;
    assert wire < 8 by { WiresAreSmall(wire, item); }
    forall d: Decoding, rest: Bytes | |d.slots| == |fields|
      ensures DecodeFields(fields, d, b + rest) == DecodeFields(fields, d, rest)
    {
      assert b + rest == FieldTag(wire, tag) + (item + rest);
      UnknownTagIsRead(fields, wire, tag, item + rest);
      WrittenIsSkipped(wire, item, rest);
      assert tag > 0 by { TagsArePositive(fields, tag); }
    }
  }

  lemma WiresAreSmall(wire: nat, item: Bytes)
    requires IsWritten(wire, item)
    ensures wire < 8
  {
  }

  lemma TagsArePositive(fields: seq<Field>, tag: nat)
    requires IsUnknown(fields, tag)
    ensures tag > 0
  {
  }

  /** Groups and the two wire types that mean nothing are not passed over: the message is refused. */
  lemma GroupsAreRefused(fields: seq<Field>, d: Decoding, wire: nat, tag: nat, rest: Bytes)
    requires IsUnknown(fields, tag) && |d.slots| == |fields| && (wire == 3 || wire == 4 || wire == 6 || wire == 7)
    ensures DecodeFields(fields, d, FieldTag(wire, tag) + rest) == None
  {
    hide IsUnknown, FieldTag, ReadVarint32, FindField, Occurrence, SkipUnknown;
    UnknownTagIsRead(fields, wire, tag, rest);
    TagsArePositive(fields, tag);
    NotPassedOver(fields, wire, tag, rest);
  }

  lemma NotPassedOver(fields: seq<Field>, wire: nat, tag: nat, rest: Bytes)
    requires tag > 0 && (wire == 3 || wire == 4 || wire == 6 || wire == 7)
    ensures SkipUnknown(fields, tag, wire, rest) == None
  {
  }

  lemma IgnoredJoins(fields: seq<Field>, a: Bytes, b: Bytes)
    requires Ignored(fields, a) && Ignored(fields, b)
    ensures Ignored(fields, a + b)
  {
    forall d: Decoding, rest: Bytes | |d.slots| == |fields|
      ensures DecodeFields(fields, d, a + b + rest) == DecodeFields(fields, d, rest)
    {
      hide DecodeFields;
      assert a + b + rest == a + (b + rest);
      IsPassedOver(fields, d, a, b + rest);
      IsPassedOver(fields, d, b, rest);
    }
  }

  lemma NothingIsIgnored(fields: seq<Field>)
    ensures Ignored(fields, [])
  {
    forall d: Decoding, rest: Bytes | |d.slots| == |fields|
      ensures DecodeFields(fields, d, [] + rest) == DecodeFields(fields, d, rest)
    {
      assert [] + rest == rest;
    }
  }

  // Whole fields

  lemma ItemIsWritten(lt: LType, v: Value)
    requires TypeOk(lt) && ValueOk(lt, v) && EncodeItem(lt, v).Some? && |EncodeItem(lt, v).value| < TWO_32
    ensures IsWritten(WireType(lt), EncodeItem(lt, v).value)
  {
    var item := EncodeItem(lt, v).value;
    match lt
    case BoolT => assert item == Varint(if v.n == 0 then 0 else 1);
    case IntT(_) => assert item == Varint(ToU64(v.n));
    case UIntT(_) => assert item == Varint(v.n);
    case SIntT(_) => assert item == Varint(ZigZag(v.n));
    case Fixed32T =>
    case Fixed64T =>
    case MessageT(fields) => assert item == WithLength(EncodeMessage(fields, v.slots).value);
    case _ => assert item == WithLength(v.bytes);
  }

  lemma {:induction false} TaggedIsIgnored(fields: seq<Field>, f: Field, slot: seq<Value>)
    requires IsUnknown(fields, f.tag) && TypeOk(f.ltype) && forall k :: 0 <= k < |slot| ==> ValueOk(f.ltype, slot[k])
    requires EncodeTagged(f, slot).Some? && |EncodeTagged(f, slot).value| < TWO_32
    ensures Ignored(fields, EncodeTagged(f, slot).value)
    decreases |slot|
  {
    hide Ignored, IsUnknown, IsWritten, TypeOk, ValueOk, EncodeItem, FieldTag;
    if slot == [] {
      NothingIsIgnored(fields);
    } else {
      var item := EncodeItem(f.ltype, slot[0]).value;
      ItemIsWritten(f.ltype, slot[0]);
      UnknownIsIgnored(fields, WireType(f.ltype), f.tag, item);
      TaggedIsIgnored(fields, f, slot[1..]);
      IgnoredJoins(fields, FieldTag(WireType(f.ltype), f.tag) + item, EncodeTagged(f, slot[1..]).value);
    }
  }

  lemma OneTagged(f: Field, v: Value)
    requires Tagged(f, v).Some?
    ensures EncodeTagged(f, [v]) == Tagged(f, v)
  {
    assert [v][1..] == [] && EncodeTagged(f, []) == Some([]);
    assert Tagged(f, v).value + [] == Tagged(f, v).value;
  }

  /** A field as the encoder writes it, of any rule and type. */
  lemma EncodedIsIgnored(fields: seq<Field>, f: Field, slot: seq<Value>)
    requires IsUnknown(fields, f.tag) && TypeOk(f.ltype) && SlotOk(f, slot)
    requires EncodeField(f, slot).Some? && |EncodeField(f, slot).value| < TWO_32
    ensures Ignored(fields, EncodeField(f, slot).value)
  {
    hide Ignored, IsUnknown, TypeOk, ValueOk, EncodeItem, EncodeItems, Tagged, EncodeTagged, FieldTag;
    if EncodeField(f, slot).value == [] {
      NothingIsIgnored(fields);
    } else if (f.rule.Repeated? || f.rule.FixedCount?) && IsNumber(f.ltype) {
      var b := EncodeItems(f.ltype, slot).value;
      PackedIsWritten(b);
      UnknownIsIgnored(fields, 2, f.tag, WithLength(b));
    } else if f.rule.Repeated? || f.rule.FixedCount? {
      TaggedIsIgnored(fields, f, slot);
    } else {
      OneTagged(f, slot[0]);
      assert slot == [slot[0]];
      TaggedIsIgnored(fields, f, slot);
    }
  }

  lemma PackedIsWritten(b: Bytes)
    requires |WithLength(b)| < TWO_32
    ensures IsWritten(2, WithLength(b))
  {
  }

  // Some fields left out

  /** The elements at the places that are kept. */
  function Kept<T>(s: seq<T>, keep: set<nat>, n: nat): seq<T>
    requires n <= |s|
  {
    if n == 0 then [] else Kept(s, keep, n - 1) + if n - 1 in keep then [s[n - 1]] else []
  }

  function KeptFields(fields: seq<Field>, keep: set<nat>): seq<Field> { Kept(fields, keep, |fields|) }

  function KeptSlots(m: Message, keep: set<nat>): Message { Kept(m, keep, |m|) }

  /** How many places before one are kept. */
  function Rank(keep: set<nat>, n: nat): nat {
    if n == 0 then 0 else Rank(keep, n - 1) + if n - 1 in keep then 1 else 0
  }

  lemma {:induction false} KeptAt<T>(s: seq<T>, keep: set<nat>, n: nat, i: nat)
    requires i <= n <= |s|
    ensures |Kept(s, keep, n)| == Rank(keep, n) && Rank(keep, i) <= Rank(keep, n)
    ensures i < n && i in keep ==> Rank(keep, i) < Rank(keep, n) && Kept(s, keep, n)[Rank(keep, i)] == s[i]
  {
    if n > 0 {
      if i < n { KeptAt(s, keep, n - 1, i); } else { KeptAt(s, keep, n - 1, n - 1); }
    }
  }

  lemma {:induction false} KeptFrom<T>(s: seq<T>, keep: set<nat>, n: nat, k: nat) returns (i: nat)
    requires n <= |s| && k < |Kept(s, keep, n)|
    ensures i < n && i in keep && Rank(keep, i) == k && Kept(s, keep, n)[k] == s[i]
  {
    KeptAt(s, keep, n - 1, n - 1);
    if k < |Kept(s, keep, n - 1)| {
      i := KeptFrom(s, keep, n - 1, k);
    } else {
      i := n - 1;
    }
  }

  lemma KeptAreOk(fields: seq<Field>, m: Message, keep: set<nat>)
    requires FieldsOk(fields) && MessageOk(fields, m)
    ensures FieldsOk(KeptFields(fields, keep)) && MessageOk(KeptFields(fields, keep), KeptSlots(m, keep))
  {
    var g, n := KeptFields(fields, keep), KeptSlots(m, keep);
    KeptAt(fields, keep, |fields|, |fields|);
    KeptAt(m, keep, |m|, |m|);
    forall k | 0 <= k < |g|
      ensures FieldOk(g[k]) && SlotOk(g[k], n[k])
    {
      var i := KeptFrom(fields, keep, |fields|, k);
      KeptAt(m, keep, |m|, i);
    }
    forall k, l | 0 <= k < l < |g|
      ensures g[k].tag != g[l].tag
    {
      var i := KeptFrom(fields, keep, |fields|, k);
      var j := KeptFrom(fields, keep, |fields|, l);
      assert i != j;
    }
    forall k, l | 0 <= k < |g| && 0 <= l < |g| && k != l && SameUnion(g[k].rule, g[l].rule)
      ensures n[k] == [] || n[l] == []
    {
      var i := KeptFrom(fields, keep, |fields|, k);
      var j := KeptFrom(fields, keep, |fields|, l);
      KeptAt(m, keep, |m|, i);
      KeptAt(m, keep, |m|, j);
    }
  }

  /** The parts of the encoded message, as those see it who have only the fields kept. */
  ghost function ChunkOf(fields: seq<Field>, m: Message, keep: set<nat>, i: nat): Chunk
    requires i < |fields| == |m| && EncodeField(fields[i], m[i]).Some?
  {
    if i in keep then Known(Rank(keep, i)) else Other(EncodeField(fields[i], m[i]).value)
  }

  ghost predicate AllEncode(fields: seq<Field>, m: Message) {
    |m| == |fields| && forall i :: 0 <= i < |fields| ==>
      EncodeField(fields[i], m[i]).Some? && |EncodeField(fields[i], m[i]).value| < TWO_32
  }

  ghost function ChunksFrom(fields: seq<Field>, m: Message, keep: set<nat>, i: nat): seq<Chunk>
    requires AllEncode(fields, m) && i <= |fields|
    decreases |fields| - i
  {
    if i == |fields| then [] else [ChunkOf(fields, m, keep, i)] + ChunksFrom(fields, m, keep, i + 1)
  }

  lemma {:induction false} AllEncoded(fields: seq<Field>, m: Message, i: nat)
    requires |m| == |fields| && i <= |fields|
    requires EncodeMessage(fields[i..], m[i..]).Some? && |EncodeMessage(fields[i..], m[i..]).value| < TWO_32
    ensures forall k :: i <= k < |fields| ==>
              EncodeField(fields[k], m[k]).Some? && |EncodeField(fields[k], m[k]).value| < TWO_32
    decreases |fields| - i
  {
    hide EncodeField;
    if i < |fields| {
      EncodedParts(fields, m, i);
      AllEncoded(fields, m, i + 1);
    }
  }

  lemma OneChunk(fields: seq<Field>, m: Message, keep: set<nat>, i: nat)
    requires FieldsOk(fields) && MessageOk(fields, m) && AllEncode(fields, m) && i < |fields|
    ensures |KeptFields(fields, keep)| == |KeptSlots(m, keep)|
    ensures ChunkOk(KeptFields(fields, keep), KeptSlots(m, keep), ChunkOf(fields, m, keep, i))
    ensures ChunkBytes(KeptFields(fields, keep), KeptSlots(m, keep), ChunkOf(fields, m, keep, i))
            == EncodeField(fields[i], m[i]).value
  {
    hide EncodeField, Ignored;
    KeptAt(fields, keep, |fields|, i);
    KeptAt(m, keep, |m|, i);
    if i !in keep {
      assert FieldOk(fields[i]) && SlotOk(fields[i], m[i]);
      LeftOutIsUnknown(fields, keep, i);
      EncodedIsIgnored(KeptFields(fields, keep), fields[i], m[i]);
    }
  }

  lemma LeftOutIsUnknown(fields: seq<Field>, keep: set<nat>, i: nat)
    requires FieldsOk(fields) && i < |fields| && i !in keep
    ensures IsUnknown(KeptFields(fields, keep), fields[i].tag)
  {
    var g := KeptFields(fields, keep);
    assert FieldOk(fields[i]);
    forall k | 0 <= k < |g|
      ensures g[k].tag != fields[i].tag
    {
      var j := KeptFrom(fields, keep, |fields|, k);
    }
  }

  /** The fields kept from one on are all among the parts, and no others. */
  lemma {:induction false} ChunksKept(fields: seq<Field>, m: Message, keep: set<nat>, i: nat)
    requires AllEncode(fields, m) && i <= |fields|
    ensures var chunks := ChunksFrom(fields, m, keep, i);
            && (forall c :: c in chunks && c.Known? ==> c.index >= Rank(keep, i))
            && forall k :: i <= k < |fields| && k in keep ==> Known(Rank(keep, k)) in chunks
    decreases |fields| - i
  {
    hide EncodeField;
    if i < |fields| {
      RankGrows(keep, i);
      ChunksKept(fields, m, keep, i + 1);
    }
  }

  lemma {:induction false} ChunksAreOk(fields: seq<Field>, m: Message, keep: set<nat>, i: nat)
    requires FieldsOk(fields) && MessageOk(fields, m) && AllEncode(fields, m) && i <= |fields|
    requires EncodeMessage(fields[i..], m[i..]).Some?
    ensures var g, n, chunks := KeptFields(fields, keep), KeptSlots(m, keep), ChunksFrom(fields, m, keep, i);
            |n| == |g| && ChunksOk(g, n, chunks) && BytesOf(g, n, chunks) == EncodeMessage(fields[i..], m[i..]).value
    decreases |fields| - i
  {
    hide FieldsOk, MessageOk, EncodeField, ChunkOk, Kept;
    var g, n := KeptFields(fields, keep), KeptSlots(m, keep);
    KeptAt(fields, keep, |fields|, i);
    KeptAt(m, keep, |m|, i);
    if i < |fields| {
      EncodedParts(fields, m, i);
      ChunksAreOk(fields, m, keep, i + 1);
      OneChunk(fields, m, keep, i);
      RankGrows(keep, i);
      ChunksKept(fields, m, keep, i + 1);
      hide ChunksOk, BytesOf, EncodeMessage;
      OneMoreChunk(g, n, ChunkOf(fields, m, keep, i), ChunksFrom(fields, m, keep, i + 1));
    }
  }

  lemma RankGrows(keep: set<nat>, i: nat)
    ensures Rank(keep, i + 1) == Rank(keep, i) + if i in keep then 1 else 0
  {
  }

  lemma OneMoreChunk(fields: seq<Field>, m: Message, c: Chunk, chunks: seq<Chunk>)
    requires |m| == |fields| && ChunkOk(fields, m, c) && ChunksOk(fields, m, chunks) && (c.Known? ==> c !in chunks)
    ensures ChunksOk(fields, m, [c] + chunks)
    ensures BytesOf(fields, m, [c] + chunks) == ChunkBytes(fields, m, c) + BytesOf(fields, m, chunks)
  {
    hide ChunkOk, ChunkBytes;
    var all := [c] + chunks;
    assert all[1..] == chunks;
  }

  /**
   * A message read under descriptors with some fields left out is the message without them, if its strings have their
   * NULs, and else it is refused.
   */
  lemma FieldsLeftOut(fields: seq<Field>, m: Message, keep: set<nat>)
    requires FieldsOk(fields) && MessageOk(fields, m)
    requires EncodeMessage(fields, m).Some? && |EncodeMessage(fields, m).value| < TWO_32
    ensures var g, n := KeptFields(fields, keep), KeptSlots(m, keep);
            Decode(g, EncodeMessage(fields, m).value) == if Terminated(g, n) then Some(n) else None
  {
    hide EncodeField, Kept, Terminated, Decode, FieldsOk, MessageOk, ChunksOk;
    var g, n := KeptFields(fields, keep), KeptSlots(m, keep);
    assert fields[0..] == fields && m[0..] == m;
    SameSize(fields, m);
    AllEncoded(fields, m, 0);
    KeptAreOk(fields, m, keep);
    ChunksAreOk(fields, m, keep, 0);
    ChunksKept(fields, m, keep, 0);
    var chunks := ChunksFrom(fields, m, keep, 0);
    forall k | 0 <= k < |g|
      ensures k in Indexes(chunks)
    {
      var i := KeptFrom(fields, keep, |fields|, k);
      assert Known(k) in chunks;
    }
    AnyOrder(g, n, chunks);
  }

  lemma SameSize(fields: seq<Field>, m: Message)
    requires MessageOk(fields, m)
    ensures |m| == |fields|
  {
  }
}
