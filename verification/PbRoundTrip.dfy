/** What nanopb has encoded, it decodes to the same message (pb_encode.c, pb_decode.c). */
module PbRoundTrip {
  import opened Wrappers
  import opened InternalKeys
  import opened Coding
  import opened PbFieldIter
  import opened PbMessages

  // Numbers

  lemma {:induction false} Shifted()
    ensures Power(2, 7) == 0x80 && Power(2, 14) == 0x4000 && Power(2, 21) == 0x20_0000 && Power(2, 28) == 0x1000_0000
  {
    assert Power(2, 3) == 8 && Power(2, 5) == 4 * Power(2, 3) && Power(2, 7) == 4 * Power(2, 5);
    assert Power(2, 10) == 8 * Power(2, 7) by { assert Power(2, 9) == 4 * Power(2, 7); }
    assert Power(2, 12) == 4 * Power(2, 10) && Power(2, 14) == 4 * Power(2, 12);
    assert Power(2, 16) == 4 * Power(2, 14) && Power(2, 18) == 4 * Power(2, 16) && Power(2, 20) == 4 * Power(2, 18);
    assert Power(2, 21) == 2 * Power(2, 20) && Power(2, 23) == 4 * Power(2, 21) && Power(2, 25) == 4 * Power(2, 23);
    assert Power(2, 27) == 4 * Power(2, 25) && Power(2, 28) == 2 * Power(2, 27);
  }

  lemma {:induction false} LastByte(v: nat, shift: nat, result: nat, next: nat, rest: Bytes)
    requires v < 128 && result < TWO_32 && shift < 32 && (shift == 28 ==> v < 16)
    requires next < TWO_32 && next == result + Power(2, shift) * v
    ensures ReadMore32(Varint(v) + rest, shift, result) == Some(Parsed(next, rest))
  {
    var b: Bytes := [v] + rest;
    assert Varint(v) + rest == b && b[1..] == rest;
    hide Power, Varint;
    var bits := b[0] % 128;
    assert bits == v;
    assert (result + Power(2, shift) * bits) % TWO_32 == next;
  }

  lemma {:induction false} OneByte(v: nat, shift: nat, result: nat, next: nat, rest: Bytes)
    requires v >= 128 && result < TWO_32 && shift < 32 && next < TWO_32 && next == result + Power(2, shift) * (v % 128)
    ensures ReadMore32(Varint(v) + rest, shift, result) == ReadMore32(Varint(v / 128) + rest, shift + 7, next)
  {
    var b := Varint(v) + rest;
    assert b[0] == 128 + v % 128 && b[1..] == Varint(v / 128) + rest;
    hide Power, Varint;
    assert b[0] % 128 == v % 128;
    assert (result + Power(2, shift) * (b[0] % 128)) % TWO_32 == next;
  }

  /** The bytes after the first: four of them at most, and the last of those has four bits. */
  lemma {:induction false} ReadMoreInverts(v: nat, result: nat, rest: Bytes)
    requires 0 < v && result < 128 && result + 128 * v < TWO_32
    ensures ReadMore32(Varint(v) + rest, 7, result) == Some(Parsed(result + 128 * v, rest))
  {
    Shifted();
    hide Power, Varint, ReadMore32;
    var v2, v3, v4 := v / 128, v / 128 / 128, v / 128 / 128 / 128;
    var r2, r3, r4 := result + 0x80 * (v % 128), result + 0x80 * (v % 128) + 0x4000 * (v2 % 128),
                      result + 0x80 * (v % 128) + 0x4000 * (v2 % 128) + 0x20_0000 * (v3 % 128);
    if v < 128 {
      LastByte(v, 7, result, result + 128 * v, rest);
    } else {
      OneByte(v, 7, result, r2, rest);
      if v2 < 128 {
        LastByte(v2, 14, r2, result + 128 * v, rest);
      } else {
        OneByte(v2, 14, r2, r3, rest);
        if v3 < 128 {
          LastByte(v3, 21, r3, result + 128 * v, rest);
        } else {
          OneByte(v3, 21, r3, r4, rest);
          LastByte(v4, 28, r4, result + 128 * v, rest);
        }
      }
    }
  }

  lemma {:induction false} Read32Inverts(v: nat, rest: Bytes)
    requires v < TWO_32
    ensures ReadVarint32(Varint(v) + rest) == Some(Parsed(v, rest))
  {
    var b := Varint(v) + rest;
    if v < 128 {
      assert b == [v] + rest && b[1..] == rest;
    } else {
      assert b[0] == 128 + v % 128 && b[1..] == Varint(v / 128) + rest;
      Shifted();
      ReadMoreInverts(v / 128, v % 128, rest);
    }
  }

  lemma {:induction false} Read64Inverts(v: nat, rest: Bytes)
    requires v < TWO_64
    ensures Read64(Varint(v) + rest) == Some(Parsed(v, rest))
  {
    Varint64RoundTrip(v, rest);
  }

  lemma {:induction false} ReadStringInverts(s: Bytes, rest: Bytes)
    requires |s| < TWO_32
    ensures ReadString(WithLength(s) + rest) == Some(Parsed(s, rest))
  {
    assert WithLength(s) + rest == Varint(|s|) + (s + rest);
    Read32Inverts(|s|, s + rest);
    assert (s + rest)[..|s|] == s && (s + rest)[|s|..] == rest;
  }

  lemma {:induction false} SignedInverts(lt: LType, n: int)
    requires TypeOk(lt) && lt.IntT? && InRange(lt, n)
    ensures EncodeNumber(lt, n).Some? && 0 <= ToU64(n) < TWO_64 && FromWire(lt, ToU64(n)) == Some(n)
  {
    if lt.size < 8 { LowHalf(n); }
  }

  /** The low half of a sign-extended number is the number. */
  lemma {:induction false} LowHalf(n: int)
    requires -Half(4) <= n < Half(4)
    ensures ToI32(ToU64(n)) == n
  {
    if n < 0 {
      assert ToU64(n) == n + TWO_32 + 0xffff_ffff * TWO_32;
      assert (n + TWO_32 + 0xffff_ffff * TWO_32) % TWO_32 == n + TWO_32;
    }
  }

  lemma {:induction false} ZigZagInverts(lt: LType, n: int)
    requires TypeOk(lt) && lt.SIntT? && InRange(lt, n)
    ensures EncodeNumber(lt, n).Some? && 0 <= ZigZag(n) < TWO_64 && FromWire(lt, ZigZag(n)) == Some(n)
  {
    assert UnZigZag(ZigZag(n)) == n;
  }

  lemma {:induction false} NumberInverts(lt: LType, n: int, rest: Bytes)
    requires TypeOk(lt) && IsNumber(lt) && InRange(lt, n)
    ensures EncodeNumber(lt, n).Some? && DecodeNumber(lt, EncodeNumber(lt, n).value + rest) == Some(Parsed(n, rest))
  {
    match lt
    case BoolT => Read32Inverts(n, rest);
    case Fixed32T =>
      FixedInverts(n, 1);
      FixedApart(n, 4, rest);
    case Fixed64T =>
      FixedInverts(1, n);
      FixedApart(n, 8, rest);
    case IntT(_) =>
      SignedInverts(lt, n);
      Read64Inverts(ToU64(n), rest);
    case UIntT(_) =>
      Read64Inverts(n, rest);
    case SIntT(_) =>
      ZigZagInverts(lt, n);
      Read64Inverts(ZigZag(n), rest);
  }

  lemma {:induction false} FixedApart(v: nat, n: nat, rest: Bytes)
    ensures (Fixed(v, n) + rest)[..n] == Fixed(v, n) && (Fixed(v, n) + rest)[n..] == rest
  {
  }

  // Values

  /** Every string has its NUL within its array: the encoder does not ask for it, the decoder needs room for it. */
  ghost predicate ItemTerminated(lt: LType, v: Value) {
    match lt
    case StringT(size) => v.Data? && |v.bytes| < size
    case MessageT(fields) => v.Msg? && Terminated(fields, v.slots)
    case _ => true
  }

  ghost predicate SlotTerminated(f: Field, slot: seq<Value>) {
    forall k :: 0 <= k < |slot| ==> ItemTerminated(f.ltype, slot[k])
  }

  ghost predicate Terminated(fields: seq<Field>, m: Message) {
    |m| == |fields| && forall i :: 0 <= i < |fields| ==> SlotTerminated(fields[i], m[i])
  }

  /** A value that is left out for being zero is the zero the decoder starts with. */
  lemma {:induction false} ZeroIsZero(lt: LType, v: Value)
    requires TypeOk(lt) && ValueOk(lt, v) && IsZero(lt, v)
    ensures v == Zero(lt) && ItemTerminated(lt, v)
    decreases lt
  {
    if lt.MessageT? {
      AllZeroIsZeros(lt.fields, v.slots);
    }
  }

  lemma {:induction false} ZeroSlotIsZero(f: Field, slot: seq<Value>)
    requires FieldOk(f) && SlotOk(f, slot) && IsZeroSlot(f, slot)
    ensures slot == ZeroSlot(f) && SlotTerminated(f, slot)
    decreases f
  {
    if f.rule.Singular? { ZeroIsZero(f.ltype, slot[0]); }
  }

  lemma {:induction false} AllZeroIsZeros(fields: seq<Field>, m: Message)
    requires (forall i :: 0 <= i < |fields| ==> FieldOk(fields[i]))
    requires |m| == |fields| && (forall i :: 0 <= i < |fields| ==> SlotOk(fields[i], m[i])) && AllZero(fields, m)
    ensures m == Zeros(fields) && Terminated(fields, m)
    decreases fields
  {
    if fields == [] {
      assert m == [];
    } else {
      var f, rest := fields[0], m[1..];
      assert FieldOk(f) && SlotOk(f, m[0]);
      ZeroSlotIsZero(f, m[0]);
      hide SlotOk, FieldOk, IsZeroSlot, SlotTerminated, ZeroSlot;
      assert forall i :: 0 <= i < |rest| ==> fields[1..][i] == fields[i + 1] && rest[i] == m[i + 1];
      AllZeroIsZeros(fields[1..], rest);
      assert m == [m[0]] + rest;
      forall i | 0 <= i < |fields|
        ensures SlotTerminated(fields[i], m[i])
      {
        if i > 0 { assert SlotTerminated(fields[1..][i - 1], rest[i - 1]); }
      }
    }
  }

  lemma {:induction false} NoNul(b: Bytes)
    requires 0 !in b
    ensures BeforeNul(b) == b
  {
    if b != [] {
      assert b[0] in b && forall x :: x in b[1..] ==> x in b;
      NoNul(b[1..]);
    }
  }

  /** What one value is decoded to; `was` is what the struct starts with. */
  ghost predicate ItemInverted(lt: LType, v: Value, bytes: Bytes, rest: Bytes) {
    DecodeItem(lt, Zero(lt), bytes + rest) == if ItemTerminated(lt, v) then Some(Parsed(v, rest)) else None
  }

  lemma {:induction false} ItemInverts(lt: LType, v: Value, rest: Bytes)
    requires TypeOk(lt) && ValueOk(lt, v) && EncodeItem(lt, v).Some? && |EncodeItem(lt, v).value| < TWO_32
    ensures ItemInverted(lt, v, EncodeItem(lt, v).value, rest)
    decreases lt, 0, 0
  {
    if IsNumber(lt) {
      NumberInverts(lt, v.n, rest);
    } else if lt.MessageT? {
      var b := EncodeMessage(lt.fields, v.slots).value;
      MessageInverts(lt.fields, v.slots);
      ReadStringInverts(b, rest);
    } else {
      ReadStringInverts(v.bytes, rest);
      StringInverts(lt, v);
    }
  }

  lemma {:induction false} StringInverts(lt: LType, v: Value)
    requires TypeOk(lt) && ValueOk(lt, v) && (lt.BytesT? || lt.StringT? || lt.InlineT?) && EncodeItem(lt, v).Some?
    ensures FromString(lt, v.bytes) == if ItemTerminated(lt, v) then Some(v) else None
  {
    if lt.StringT? { NoNul(v.bytes); }
    if lt.InlineT? && v.bytes == [] { assert v.bytes == seq(lt.size, _ => 0); }
  }

  // Fields

  /** What the loop does with one occurrence of a field. */
  ghost function AfterField(fields: seq<Field>, d: Decoding, i: nat, wire: nat, body: Bytes): Option<Decoding>
    requires i < |fields| == |d.slots|
  {
    var p := Occurrence(fields, d, i, wire, body);
    if p.None? then None else DecodeFields(fields, p.value.value, p.value.rest)
  }

  lemma {:induction false} TagIsRead(fields: seq<Field>, i: nat, wire: nat, body: Bytes)
    requires FieldsOk(fields) && i < |fields| && wire < 8
    ensures var t := fields[i].tag * 8 + wire;
            && 0 < t < TWO_32 && t / 8 == fields[i].tag && t % 8 == wire && FieldTag(wire, fields[i].tag) + body != []
            && ReadVarint32(FieldTag(wire, fields[i].tag) + body) == Some(Parsed(t, body))
            && FindField(fields, fields[i].tag) == Some(i)
  {
    hide ReadVarint32, FindField, Varint;
    var t := fields[i].tag * 8 + wire;
    assert FieldOk(fields[i]);
    Read32Inverts(t, body);
    FoundAt(fields, i);
  }

  lemma {:induction false} Occurs(fields: seq<Field>, d: Decoding, i: nat, wire: nat, body: Bytes)
    requires FieldsOk(fields) && i < |fields| == |d.slots| && wire < 8
    ensures DecodeFields(fields, d, FieldTag(wire, fields[i].tag) + body) == AfterField(fields, d, i, wire, body)
  {
    hide FieldsOk, FieldTag, ReadVarint32, FindField, Occurrence, SkipUnknown;
    TagIsRead(fields, i, wire, body);
  }

  /** Some fields are decoded, one holds `slot`, and the others hold what they started with. */
  ghost predicate DecodedTo(fields: seq<Field>, m: Message, done: set<nat>, i: nat, slot: seq<Value>, slots: Message)
    requires i < |fields| == |m|
  {
    && |slots| == |fields| && slots[i] == slot
    && forall j :: 0 <= j < |fields| && j != i ==> slots[j] == if j in done then m[j] else ZeroSlot(fields[j])
  }

  /** The required fields among those decoded have been noted ... */
  ghost predicate Seen(fields: seq<Field>, done: set<nat>, seen: set<nat>) {
    forall j :: 0 <= j < |fields| && j in done && Counts(fields, j) ==> RequiredIndex(fields, j) in seen
  }

  /** ... and no others. */
  ghost predicate OnlySeen(fields: seq<Field>, done: set<nat>, seen: set<nat>) {
    forall r :: r in seen ==> exists j :: 0 <= j < |fields| && j in done && Counts(fields, j) && RequiredIndex(fields, j) == r
  }

  /** The field is one of the first required ones, which are the ones noted. */
  predicate Counts(fields: seq<Field>, j: nat)
    requires j < |fields|
  {
    fields[j].rule.Required? && RequiredIndex(fields, j) < MAX_REQUIRED_FIELDS
  }

  /** Only members of a union that are not there are cleared. */
  lemma {:induction false} StoredHere(fields: seq<Field>, m: Message, done: set<nat>, i: nat, was: seq<Value>,
                                      slots: Message, slot: seq<Value>)
    requires i < |fields| == |m| && UnionsOk(fields, m) && m[i] != [] && DecodedTo(fields, m, done, i, was, slots)
    ensures DecodedTo(fields, m, done, i, slot, Stored(fields, slots, i, slot))
  {
    var s2 := Stored(fields, slots, i, slot);
    forall j | 0 <= j < |fields| && j != i
      ensures s2[j] == slots[j]
    {
      if SameUnion(fields[i].rule, fields[j].rule) { assert m[i] == [] || m[j] == []; }
    }
  }

  /** Where the decoder is once it has read some fields and `slot` of another one. */
  ghost predicate Reached(fields: seq<Field>, m: Message, done: set<nat>, i: nat, slot: seq<Value>, d: Decoding)
    requires i < |fields| == |m|
  {
    && DecodedTo(fields, m, done, i, slot, d.slots) && Seen(fields, done, d.seen) && OnlySeen(fields, done + {i}, d.seen)
    && (if fields[i].rule.FixedCount? && slot != [] then d.filling == Some(i) else FilledIn(fields, done, d))
  }

  ghost predicate FilledIn(fields: seq<Field>, done: set<nat>, d: Decoding) {
    Filled(fields, d) && (d.filling.Some? ==> d.filling.value in done)
  }

  /** Where it is between fields. */
  ghost predicate Between(fields: seq<Field>, m: Message, done: set<nat>, d: Decoding)
    requires |fields| == |m|
  {
    && |d.slots| == |fields| && Seen(fields, done, d.seen) && OnlySeen(fields, done, d.seen) && FilledIn(fields, done, d)
    && forall j :: 0 <= j < |fields| ==> d.slots[j] == if j in done then m[j] else ZeroSlot(fields[j])
  }

  /** What the decoder notes keeps it where it is. */
  lemma {:induction false} NotedHere(fields: seq<Field>, m: Message, done: set<nat>, i: nat, slot: seq<Value>,
                                     d: Decoding)
    requires i < |fields| == |m| && i !in done && Reached(fields, m, done, i, slot, d)
    ensures var n := Noted(fields, d, i);
            && n.Some? && DecodedTo(fields, m, done, i, slot, n.value.slots)
            && Seen(fields, done + {i}, n.value.seen) && OnlySeen(fields, done + {i}, n.value.seen)
            && (if fields[i].rule.FixedCount? then n.value.filling == Some(i) else FilledIn(fields, done, n.value))
  {
  }

  /** One occurrence of a field that is decoded to something. */
  lemma {:induction false} OneMore(fields: seq<Field>, m: Message, done: set<nat>, i: nat, slot: seq<Value>,
                                   next: seq<Value>, d: Decoding, wire: nat, body: Bytes,
                rest: Bytes) returns (d2: Decoding)
    requires FieldsOk(fields) && i < |fields| == |m| && UnionsOk(fields, m) && m[i] != [] && wire < 8 && next != []
    requires i !in done && Reached(fields, m, done, i, slot, d)
    requires DecodeField(fields[i], wire, slot, body) == Some(Parsed(next, rest))
    ensures Reached(fields, m, done, i, next, d2) && Seen(fields, done + {i}, d2.seen)
    ensures DecodeFields(fields, d, FieldTag(wire, fields[i].tag) + body) == DecodeFields(fields, d2, rest)
  {
    hide FieldsOk, UnionsOk, DecodedTo, Seen, OnlySeen, DecodeField, DecodeFields, FieldTag;
    DecodedSlot(fields, m, done, i, slot, d.slots);
    NotedHere(fields, m, done, i, slot, d);
    var n := Noted(fields, d, i).value;
    DecodedSlot(fields, m, done, i, slot, n.slots);
    SeenLess(fields, done, i, n.seen);
    d2 := n.(slots := Stored(fields, n.slots, i, next));
    StoredHere(fields, m, done, i, slot, n.slots, next);
    Occurs(fields, d, i, wire, body);
    assert FilledIn(fields, done, n) ==> FilledIn(fields, done, d2) by {
      StoredBefore(fields, m, done, i, slot, n, next);
    }
  }

  lemma {:induction false} SeenLess(fields: seq<Field>, done: set<nat>, i: nat, seen: set<nat>)
    requires i < |fields| && Seen(fields, done + {i}, seen)
    ensures Seen(fields, done, seen)
  {
  }

  lemma {:induction false} DecodedSlot(fields: seq<Field>, m: Message, done: set<nat>, i: nat, slot: seq<Value>,
                                       slots: Message)
    requires i < |fields| == |m| && DecodedTo(fields, m, done, i, slot, slots)
    ensures |slots| == |fields| && slots[i] == slot
  {
  }

  lemma {:induction false} StoredBefore(fields: seq<Field>, m: Message, done: set<nat>, i: nat, slot: seq<Value>,
                                        n: Decoding, next: seq<Value>)
    requires i < |fields| == |m| && i !in done && DecodedTo(fields, m, done, i, slot, n.slots)
    ensures FilledIn(fields, done, n) ==> FilledIn(fields, done, n.(slots := Stored(fields, n.slots, i, next)))
  {
  }

  /** One occurrence that is not decoded. */
  lemma {:induction false} OneFails(fields: seq<Field>, m: Message, done: set<nat>, i: nat, slot: seq<Value>,
                                    d: Decoding, wire: nat, body: Bytes)
    requires FieldsOk(fields) && i < |fields| == |m| && wire < 8 && i !in done && Reached(fields, m, done, i, slot, d)
    requires DecodeField(fields[i], wire, slot, body) == None
    ensures DecodeFields(fields, d, FieldTag(wire, fields[i].tag) + body) == None
  {
    hide FieldsOk, DecodeField, DecodeFields, FieldTag;
    NotedHere(fields, m, done, i, slot, d);
    Occurs(fields, d, i, wire, body);
  }

  lemma {:induction false} Begin(fields: seq<Field>, m: Message, done: set<nat>, i: nat, d: Decoding)
    requires i < |fields| == |m| && i !in done && Between(fields, m, done, d)
    ensures Reached(fields, m, done, i, ZeroSlot(fields[i]), d)
  {
  }

  lemma {:induction false} End(fields: seq<Field>, m: Message, done: set<nat>, i: nat, d: Decoding)
    requires i < |fields| == |m| && SlotOk(fields[i], m[i]) && Reached(fields, m, done, i, m[i], d)
    requires Seen(fields, done + {i}, d.seen)
    ensures Between(fields, m, done + {i}, d)
  {
  }

  /** A field is decoded to what it held, or the decoder fails. */
  ghost predicate FieldInverted(fields: seq<Field>, m: Message, done: set<nat>, i: nat, d: Decoding, d2: Decoding,
                                e: Bytes, tail: Bytes)
    requires i < |fields| == |m| && |d.slots| == |fields|
  {
    if SlotTerminated(fields[i], m[i]) then
      Between(fields, m, done + {i}, d2) && DecodeFields(fields, d, e + tail) == DecodeFields(fields, d2, tail)
    else DecodeFields(fields, d, e + tail) == None
  }

  /** A field that is left out. */
  lemma {:induction false} AbsentInverts(fields: seq<Field>, m: Message, done: set<nat>, i: nat, d: Decoding, tail: Bytes)
    requires FieldsOk(fields) && MessageOk(fields, m) && i < |fields| && i !in done && Between(fields, m, done, d)
    requires !fields[i].rule.Required? && (m[i] == [] || (fields[i].rule.Singular? && IsZero(fields[i].ltype, m[i][0])))
    ensures FieldInverted(fields, m, done, i, d, d, [], tail)
  {
    var f := fields[i];
    assert FieldOk(f) && SlotOk(f, m[i]);
    if f.rule.Singular? { ZeroIsZero(f.ltype, m[i][0]); }
    assert m[i] == ZeroSlot(f);
    assert [] + tail == tail;
  }

  /** A field that is there once. */
  lemma {:induction false} TaggedInverts(fields: seq<Field>, m: Message, done: set<nat>, i: nat, d: Decoding,
                                         tail: Bytes) returns (d2: Decoding)
    requires FieldsOk(fields) && MessageOk(fields, m) && i < |fields| && i !in done && Between(fields, m, done, d)
    requires var r := fields[i].rule; r.Required? || r.Singular? || r.Optional? || r.OneOf?
    requires |m[i]| == 1 && EncodeItem(fields[i].ltype, m[i][0]).Some?
    requires ItemInverted(fields[i].ltype, m[i][0], EncodeItem(fields[i].ltype, m[i][0]).value, tail)
    ensures FieldInverted(fields, m, done, i, d, d2, Tagged(fields[i], m[i][0]).value, tail)
  {
    var f, v := fields[i], m[i][0];
    var item, wire := EncodeItem(f.ltype, v).value, WireType(f.ltype);
    Begin(fields, m, done, i, d);
    assert FieldTag(wire, f.tag) + item + tail == FieldTag(wire, f.tag) + (item + tail);
    assert SlotOk(f, m[i]) && m[i] == [v] && (SlotTerminated(f, m[i]) <==> ItemTerminated(f.ltype, v));
    hide DecodeItem, DecodeFields, FieldsOk, Reached, Between, ItemTerminated, EncodeItem, FieldTag;
    assert DecodeField(f, wire, ZeroSlot(f), item + tail) == Single(DecodeItem(f.ltype, Zero(f.ltype), item + tail));
    if ItemTerminated(f.ltype, v) {
      d2 := OneMore(fields, m, done, i, ZeroSlot(f), [v], d, wire, item + tail, tail);
      End(fields, m, done, i, d2);
    } else {
      d2 := d;
      OneFails(fields, m, done, i, ZeroSlot(f), d, wire, item + tail);
    }
  }

  lemma {:induction false} PackedInverts(lt: LType, max: nat, slot: seq<Value>, k: nat)
    requires TypeOk(lt) && IsNumber(lt) && k <= |slot| <= max && forall j :: 0 <= j < |slot| ==> ValueOk(lt, slot[j])
    ensures EncodeItems(lt, slot[k..]).Some?
    ensures DecodePacked(lt, max, slot[..k], EncodeItems(lt, slot[k..]).value) == Some(slot)
    decreases |slot| - k
  {
    if k == |slot| {
      assert slot[..k] == slot;
    } else {
      var v, rest := slot[k], slot[k + 1..];
      assert slot[k..][0] == v && slot[k..][1..] == rest && ValueOk(lt, v);
      PackedInverts(lt, max, slot, k + 1);
      NumberInverts(lt, v.n, EncodeItems(lt, rest).value);
      assert slot[..k] + [v] == slot[..k + 1];
    }
  }

  /** A packed array. */
  lemma {:induction false} ArrayInverts(fields: seq<Field>, m: Message, done: set<nat>, i: nat, max: nat, d: Decoding,
                                        tail: Bytes) returns (d2: Decoding)
    requires FieldsOk(fields) && MessageOk(fields, m) && i < |fields| && i !in done && Between(fields, m, done, d)
    requires (fields[i].rule.Repeated? || fields[i].rule.FixedCount?) && max == fields[i].rule.max
    requires 0 < |m[i]| <= max && IsNumber(fields[i].ltype)
    requires EncodeItems(fields[i].ltype, m[i]).Some? && |EncodeItems(fields[i].ltype, m[i]).value| < TWO_32
    ensures FieldInverted(fields, m, done, i, d, d2, FieldTag(2, fields[i].tag) + WithLength(EncodeItems(fields[i].ltype, m[i]).value), tail)
  {
    var f, slot := fields[i], m[i];
    assert FieldOk(f) && SlotOk(f, slot);
    var b := EncodeItems(f.ltype, slot).value;
    assert slot[0..] == slot && slot[..0] == [];
    PackedInverts(f.ltype, max, slot, 0);
    Begin(fields, m, done, i, d);
    ReadStringInverts(b, tail);
    assert FieldTag(2, f.tag) + WithLength(b) + tail == FieldTag(2, f.tag) + (WithLength(b) + tail);
    assert SlotTerminated(f, slot);
    hide DecodeFields, FieldsOk, Reached, Between, DecodePacked, ReadString, WithLength, FieldTag;
    assert DecodeField(f, 2, [], WithLength(b) + tail) == Some(Parsed(slot, tail));
    d2 := OneMore(fields, m, done, i, [], slot, d, 2, WithLength(b) + tail, tail);
    End(fields, m, done, i, d2);
  }

  lemma {:induction false} FieldItemInverts(f: Field, v: Value, rest: Bytes)
    requires FieldOk(f) && ValueOk(f.ltype, v)
    requires EncodeItem(f.ltype, v).Some? && |EncodeItem(f.ltype, v).value| < TWO_32
    ensures ItemInverted(f.ltype, v, EncodeItem(f.ltype, v).value, rest)
    decreases f, 0, 0
  {
    ItemInverts(f.ltype, v, rest);
  }

  /** An array that is not packed: its elements from one on. */
  lemma {:induction false} ElementsInvert(fields: seq<Field>, m: Message, done: set<nat>, i: nat, max: nat, k: nat,
                                          d: Decoding, tail: Bytes)
    returns (d2: Decoding)
    requires FieldsOk(fields) && MessageOk(fields, m) && i < |fields| && k <= |m[i]| <= max
    requires (fields[i].rule.Repeated? || fields[i].rule.FixedCount?) && max == fields[i].rule.max && !IsNumber(fields[i].ltype)
    requires i !in done && Reached(fields, m, done, i, m[i][..k], d) && Seen(fields, done + {i}, d.seen)
    requires EncodeTagged(fields[i], m[i][k..]).Some? && |EncodeTagged(fields[i], m[i][k..]).value| < TWO_32
    ensures ElementsInverted(fields, m, done, i, k, d, d2, EncodeTagged(fields[i], m[i][k..]).value, tail)
    decreases fields, 0, |m[i]| - k
  {
    var f, slot := fields[i], m[i];
    assert FieldOk(f) && SlotOk(f, slot);
    d2 := d;
    if k == |slot| {
      assert slot[..k] == slot && [] + tail == tail;
    } else {
      ElementApart(f, slot, k);
      var v, left := slot[k], EncodeTagged(f, slot[k + 1..]).value;
      assert ValueOk(f.ltype, v);
      hide EncodeTagged;
      var item := EncodeItem(f.ltype, v).value;
      FieldItemInverts(f, v, left + tail);
      Apart(WireType(f.ltype), f.tag, item, left, tail);
      hide ItemInverted, FieldsOk, FieldTag, DecodeFields, DecodeField, Reached, Seen, EncodeItem;
      hide ItemTerminated, SlotTerminated;
      if ItemTerminated(f.ltype, v) {
        ElementDecoded(f, max, slot[..k], v, item, left + tail);
        var d3 := OneMore(fields, m, done, i, slot[..k], slot[..k + 1], d, WireType(f.ltype), item + (left + tail), left + tail);
        d2 := ElementsInvert(fields, m, done, i, max, k + 1, d3, tail);
      } else {
        ElementFails(f, max, slot[..k], v, item, left + tail);
        OneFails(fields, m, done, i, slot[..k], d, WireType(f.ltype), item + (left + tail));
      }
    }
  }

  lemma {:induction false} ElementApart(f: Field, slot: seq<Value>, k: nat)
    requires k < |slot| && EncodeTagged(f, slot[k..]).Some?
    ensures slot[..k] + [slot[k]] == slot[..k + 1]
    ensures SlotTerminated(f, slot[k..]) <==> ItemTerminated(f.ltype, slot[k]) && SlotTerminated(f, slot[k + 1..])
    ensures var item, left := EncodeItem(f.ltype, slot[k]), EncodeTagged(f, slot[k + 1..]);
            && item.Some? && left.Some?
            && EncodeTagged(f, slot[k..]).value == FieldTag(WireType(f.ltype), f.tag) + item.value + left.value
  {
    var s := slot[k..];
    assert s[0] == slot[k] && s[1..] == slot[k + 1..];
    hide EncodeItem, FieldTag, ItemTerminated;
    if ItemTerminated(f.ltype, slot[k]) && SlotTerminated(f, s[1..]) {
      forall j | 0 <= j < |s|
        ensures ItemTerminated(f.ltype, s[j])
      {
        if j > 0 { assert s[j] == s[1..][j - 1]; }
      }
    }
    if SlotTerminated(f, s) {
      var rest := slot[k + 1..];
      forall j | 0 <= j < |rest|
        ensures ItemTerminated(f.ltype, rest[j])
      {
        assert s[j + 1] == rest[j];
      }
    }
  }

  ghost predicate ElementsInverted(fields: seq<Field>, m: Message, done: set<nat>, i: nat, k: nat, d: Decoding,
                                   d2: Decoding, e: Bytes, tail: Bytes)
    requires i < |fields| == |m| && k <= |m[i]| && |d.slots| == |fields|
  {
    if SlotTerminated(fields[i], m[i][k..]) then
      && Reached(fields, m, done, i, m[i], d2) && Seen(fields, done + {i}, d2.seen)
      && DecodeFields(fields, d, e + tail) == DecodeFields(fields, d2, tail)
    else DecodeFields(fields, d, e + tail) == None
  }

  lemma {:induction false} Apart(wire: nat, tag: nat, item: Bytes, left: Bytes, tail: Bytes)
    ensures FieldTag(wire, tag) + item + left + tail == FieldTag(wire, tag) + (item + (left + tail))
  {
  }

  lemma {:induction false} ElementDecoded(f: Field, max: nat, slot: seq<Value>, v: Value, item: Bytes, rest: Bytes)
    requires (f.rule.Repeated? || f.rule.FixedCount?) && max == f.rule.max && !IsNumber(f.ltype) && |slot| < max
    requires ItemInverted(f.ltype, v, item, rest) && ItemTerminated(f.ltype, v)
    ensures DecodeField(f, WireType(f.ltype), slot, item + rest) == Some(Parsed(slot + [v], rest))
  {
  }

  lemma {:induction false} ElementFails(f: Field, max: nat, slot: seq<Value>, v: Value, item: Bytes, rest: Bytes)
    requires (f.rule.Repeated? || f.rule.FixedCount?) && max == f.rule.max && !IsNumber(f.ltype) && |slot| < max
    requires ItemInverted(f.ltype, v, item, rest) && !ItemTerminated(f.ltype, v)
    ensures DecodeField(f, WireType(f.ltype), slot, item + rest) == None
  {
  }

  lemma {:induction false} FieldInverts(fields: seq<Field>, m: Message, done: set<nat>, i: nat, d: Decoding,
                                        tail: Bytes) returns (d2: Decoding)
    requires FieldsOk(fields) && MessageOk(fields, m) && i < |fields| && i !in done && Between(fields, m, done, d)
    requires EncodeField(fields[i], m[i]).Some? && |EncodeField(fields[i], m[i]).value| < TWO_32
    ensures FieldInverted(fields, m, done, i, d, d2, EncodeField(fields[i], m[i]).value, tail)
    decreases fields, 1, 0
  {
    var f, slot := fields[i], m[i];
    assert FieldOk(f) && SlotOk(f, slot);
    if !f.rule.Required? && (slot == [] || (f.rule.Singular? && IsZero(f.ltype, slot[0]))) {
      d2 := d;
      AbsentInverts(fields, m, done, i, d, tail);
    } else if f.rule.Repeated? || f.rule.FixedCount? {
      if IsNumber(f.ltype) {
        d2 := ArrayInverts(fields, m, done, i, f.rule.max, d, tail);
      } else {
        assert slot[..0] == [] && slot[0..] == slot;
        Begin(fields, m, done, i, d);
        d2 := ElementsInvert(fields, m, done, i, f.rule.max, 0, d, tail);
        if SlotTerminated(f, slot) { End(fields, m, done, i, d2); }
      }
    } else {
      FieldItemInverts(f, slot[0], tail);
      d2 := TaggedInverts(fields, m, done, i, d, tail);
    }
  }

  // Fields in any order, with others between them

  /** The bytes are passed over, wherever they stand between fields. */
  ghost predicate Ignored(fields: seq<Field>, b: Bytes) {
    forall d: Decoding, rest: Bytes {:trigger DecodeFields(fields, d, b + rest)} :: |d.slots| == |fields| ==>
      DecodeFields(fields, d, b + rest) == DecodeFields(fields, d, rest)
  }

  /** A part of some input: a field of the message, or bytes that mean nothing to these descriptors. */
  datatype Chunk = Known(index: nat) | Other(bytes: Bytes)

  ghost predicate ChunkOk(fields: seq<Field>, m: Message, c: Chunk)
    requires |m| == |fields|
  {
    match c
    case Known(i) =>
      i < |fields| && EncodeField(fields[i], m[i]).Some? && |EncodeField(fields[i], m[i]).value| < TWO_32
    case Other(b) => Ignored(fields, b)
  }

  ghost predicate ChunksOk(fields: seq<Field>, m: Message, chunks: seq<Chunk>)
    requires |m| == |fields|
  {
    && (forall k :: 0 <= k < |chunks| ==> ChunkOk(fields, m, chunks[k]))
    && (forall k, l :: 0 <= k < l < |chunks| && chunks[k].Known? ==> chunks[k] != chunks[l])
  }

  ghost function ChunkBytes(fields: seq<Field>, m: Message, c: Chunk): Bytes
    requires |m| == |fields| && ChunkOk(fields, m, c)
  {
    match c
    case Known(i) => EncodeField(fields[i], m[i]).value
    case Other(b) => b
  }

  ghost function BytesOf(fields: seq<Field>, m: Message, chunks: seq<Chunk>): Bytes
    requires |m| == |fields| && ChunksOk(fields, m, chunks)
  {
    if chunks == [] then [] else ChunkBytes(fields, m, chunks[0]) + BytesOf(fields, m, chunks[1..])
  }

  ghost function Indexes(chunks: seq<Chunk>): set<nat> {
    set c | c in chunks && c.Known? :: c.index
  }

  ghost predicate AllTerminated(fields: seq<Field>, m: Message, chunks: seq<Chunk>)
    requires |m| == |fields| && ChunksOk(fields, m, chunks)
  {
    forall i :: i in Indexes(chunks) ==> i < |fields| && SlotTerminated(fields[i], m[i])
  }

  /** The chunks are all decoded, and what is behind them is read from there on; or the decoder fails. */
  ghost predicate ChunksInverted(fields: seq<Field>, m: Message, done: set<nat>, chunks: seq<Chunk>, d: Decoding,
                                 d2: Decoding,
                                 tail: Bytes)
    requires |m| == |fields| == |d.slots| && ChunksOk(fields, m, chunks)
  {
    if AllTerminated(fields, m, chunks) then
      && Between(fields, m, done + Indexes(chunks), d2)
      && DecodeFields(fields, d, BytesOf(fields, m, chunks) + tail) == DecodeFields(fields, d2, tail)
    else DecodeFields(fields, d, BytesOf(fields, m, chunks) + tail) == None
  }

  lemma {:induction false} FewerChunks(fields: seq<Field>, m: Message, chunks: seq<Chunk>)
    requires |m| == |fields| && ChunksOk(fields, m, chunks) && chunks != []
    ensures ChunksOk(fields, m, chunks[1..]) && ChunkOk(fields, m, chunks[0])
    ensures Indexes(chunks) == Indexes(chunks[1..]) + if chunks[0].Known? then {chunks[0].index} else {}
    ensures chunks[0].Known? ==> chunks[0].index !in Indexes(chunks[1..])
  {
    hide ChunkOk;
    assert chunks == [chunks[0]] + chunks[1..];
    if chunks[0].Known? {
      forall k | 0 <= k < |chunks[1..]|
        ensures chunks[1..][k] != chunks[0]
      {
        assert chunks[1..][k] == chunks[k + 1];
      }
    }
  }

  lemma {:induction false} ChunksInvert(fields: seq<Field>, m: Message, done: set<nat>, chunks: seq<Chunk>, d: Decoding,
                                        tail: Bytes)
    returns (d2: Decoding)
    requires FieldsOk(fields) && MessageOk(fields, m) && |d.slots| == |fields| == |m| && Between(fields, m, done, d)
    requires ChunksOk(fields, m, chunks) && done !! Indexes(chunks)
    ensures ChunksInverted(fields, m, done, chunks, d, d2, tail)
    decreases fields, 2, |chunks|
  {
    hide FieldsOk, MessageOk, Between, ChunksOk, Ignored, EncodeField, SlotTerminated;
    d2 := d;
    if chunks == [] {
      assert done + Indexes(chunks) == done && [] + tail == tail;
    } else {
      FewerChunks(fields, m, chunks);
      var rest := chunks[1..];
      var c, behind := ChunkBytes(fields, m, chunks[0]), BytesOf(fields, m, rest);
      assert c + behind + tail == c + (behind + tail);
      match chunks[0]
      case Other(b) =>
        IsPassedOver(fields, d, b, behind + tail);
        assert Indexes(chunks) == Indexes(rest);
        d2 := ChunksInvert(fields, m, done, rest, d, tail);
      case Known(i) =>
        var d3 := FieldInverts(fields, m, done, i, d, behind + tail);
        if SlotTerminated(fields[i], m[i]) {
          BetweenSlots(fields, m, done + {i}, d3);
          d2 := ChunksInvert(fields, m, done + {i}, rest, d3, tail);
          assert done + {i} + Indexes(rest) == done + Indexes(chunks);
        } else {
          assert i in Indexes(chunks);
        }
    }
  }

  lemma {:induction false} BetweenSlots(fields: seq<Field>, m: Message, done: set<nat>, d: Decoding)
    requires |m| == |fields| && Between(fields, m, done, d)
    ensures |d.slots| == |fields|
  {
  }

  lemma {:induction false} IsPassedOver(fields: seq<Field>, d: Decoding, b: Bytes, rest: Bytes)
    requires Ignored(fields, b) && |d.slots| == |fields|
    ensures DecodeFields(fields, d, b + rest) == DecodeFields(fields, d, rest)
  {
  }

  /** A field that is not written is one that holds what the decoder starts with. */
  lemma {:induction false} UnwrittenIsZero(f: Field, slot: seq<Value>)
    requires FieldOk(f) && SlotOk(f, slot) && EncodeField(f, slot) == Some([])
    ensures slot == ZeroSlot(f) && SlotTerminated(f, slot) && !f.rule.Required?
  {
    hide EncodeItem, FieldOk, SlotTerminated;
    if slot == [] {
      NothingIsTerminated(f);
    } else {
      TagsAreNotEmpty(f, slot);
      ZeroIsZeroSlot(f, slot);
    }
  }

  lemma {:induction false} NothingIsTerminated(f: Field)
    ensures SlotTerminated(f, [])
  {
  }

  lemma {:induction false} TagsAreNotEmpty(f: Field, slot: seq<Value>)
    requires SlotOk(f, slot) && slot != [] && EncodeField(f, slot) == Some([])
    ensures f.rule.Singular? && |slot| == 1 && IsZero(f.ltype, slot[0])
  {
    hide EncodeItem, EncodeItems, ValueOk, IsZero;
    var t := Tagged(f, slot[0]);
    assert |FieldTag(2, f.tag)| > 0 && |FieldTag(WireType(f.ltype), f.tag)| > 0;
    assert t.Some? ==> |t.value| > 0;
    var all := EncodeTagged(f, slot);
    assert all == Then(t, EncodeTagged(f, slot[1..])) && (all.Some? ==> |all.value| > 0);
  }

  lemma {:induction false} ZeroIsZeroSlot(f: Field, slot: seq<Value>)
    requires FieldOk(f) && SlotOk(f, slot) && f.rule.Singular? && |slot| == 1 && IsZero(f.ltype, slot[0])
    ensures slot == ZeroSlot(f) && SlotTerminated(f, slot)
  {
    ZeroIsZero(f.ltype, slot[0]);
  }

  /** Every field that is written is among the chunks. */
  ghost predicate AllWritten(fields: seq<Field>, m: Message, chunks: seq<Chunk>)
    requires |m| == |fields|
  {
    forall i :: 0 <= i < |fields| && i !in Indexes(chunks) ==> EncodeField(fields[i], m[i]) == Some([])
  }

  lemma {:induction false} AllSeen(fields: seq<Field>, done: set<nat>, seen: set<nat>, n: nat)
    requires n <= |fields| && Seen(fields, done, seen)
    requires forall j :: 0 <= j < |fields| && fields[j].rule.Required? ==> j in done
    ensures forall r :: 0 <= r < RequiredIndex(fields, n) && r < MAX_REQUIRED_FIELDS ==> r in seen
  {
    if n > 0 { AllSeen(fields, done, seen, n - 1); }
  }

  /**
   * The decoder takes fields in any order, with anything between them that means nothing to it: it gives the message
   * exactly if every string that is there has its NUL, and else refuses it.
   */
  lemma {:induction false} AnyOrder(fields: seq<Field>, m: Message, chunks: seq<Chunk>)
    requires FieldsOk(fields) && MessageOk(fields, m) && ChunksOk(fields, m, chunks) && AllWritten(fields, m, chunks)
    ensures Decode(fields, BytesOf(fields, m, chunks)) == if Terminated(fields, m) then Some(m) else None
    decreases fields, 3, 0
  {
    hide FieldsOk, ChunksOk, EncodeField, SlotTerminated, DecodeFields, ChunksInverted;
    var d := Decoding(Zeros(fields), {}, None);
    var end := ChunksInvert(fields, m, {}, chunks, d, []);
    ChunksEnd(fields, m, chunks, d, end);
    forall i | 0 <= i < |fields| && i !in Indexes(chunks)
      ensures m[i] == ZeroSlot(fields[i]) && SlotTerminated(fields[i], m[i]) && !fields[i].rule.Required?
    {
      FieldIsOk(fields, i);
      UnwrittenIsZero(fields[i], m[i]);
    }
    assert AllTerminated(fields, m, chunks) <==> Terminated(fields, m) by { IndexesInRange(fields, m, chunks); }
    if AllTerminated(fields, m, chunks) {
      assert end.slots == m;
      AllSeen(fields, Indexes(chunks), end.seen, |fields|);
    }
  }

  lemma {:induction false} ChunksEnd(fields: seq<Field>, m: Message, chunks: seq<Chunk>, d: Decoding, end: Decoding)
    requires |m| == |fields| == |d.slots| && ChunksOk(fields, m, chunks) && ChunksInverted(fields, m, {}, chunks, d, end, [])
    ensures if AllTerminated(fields, m, chunks) then
              && Between(fields, m, Indexes(chunks), end)
              && DecodeFields(fields, d, BytesOf(fields, m, chunks)) == Some(end)
            else DecodeFields(fields, d, BytesOf(fields, m, chunks)) == None
  {
    hide ChunksOk;
    var b := BytesOf(fields, m, chunks);
    assert b + [] == b && {} + Indexes(chunks) == Indexes(chunks);
    if AllTerminated(fields, m, chunks) {
      BetweenSlots(fields, m, Indexes(chunks), end);
      assert DecodeFields(fields, end, []) == Some(end);
    }
  }

  lemma {:induction false} FieldIsOk(fields: seq<Field>, i: nat)
    requires FieldsOk(fields) && i < |fields|
    ensures FieldOk(fields[i])
  {
  }

  lemma {:induction false} IndexesInRange(fields: seq<Field>, m: Message, chunks: seq<Chunk>)
    requires |m| == |fields| && ChunksOk(fields, m, chunks)
    ensures forall i :: i in Indexes(chunks) ==> i < |fields|
  {
    forall i | i in Indexes(chunks)
      ensures i < |fields|
    {
      var c :| c in chunks && c.Known? && c.index == i;
      var k :| 0 <= k < |chunks| && chunks[k] == c;
      assert ChunkOk(fields, m, chunks[k]);
    }
  }

  // As the encoder writes them

  function InOrder(i: nat, n: nat): (r: seq<Chunk>)
    requires i <= n
    ensures |r| == n - i && forall k :: 0 <= k < |r| ==> r[k] == Known(i + k)
  {
    seq(n - i, k requires 0 <= k < n - i => Known(i + k))
  }

  lemma {:induction false} EncodedParts(fields: seq<Field>, m: Message, i: nat)
    requires |m| == |fields| && i < |fields| && EncodeMessage(fields[i..], m[i..]).Some?
    ensures EncodeField(fields[i], m[i]).Some? && EncodeMessage(fields[i + 1..], m[i + 1..]).Some?
    ensures EncodeMessage(fields[i..], m[i..]).value
            == EncodeField(fields[i], m[i]).value + EncodeMessage(fields[i + 1..], m[i + 1..]).value
  {
    assert fields[i..][0] == fields[i] && fields[i..][1..] == fields[i + 1..];
    assert m[i..][0] == m[i] && m[i..][1..] == m[i + 1..];
  }

  lemma {:induction false} EncodedInOrder(fields: seq<Field>, m: Message, i: nat)
    requires |m| == |fields| && i <= |fields|
    requires EncodeMessage(fields[i..], m[i..]).Some? && |EncodeMessage(fields[i..], m[i..]).value| < TWO_32
    ensures ChunksOk(fields, m, InOrder(i, |fields|))
    ensures BytesOf(fields, m, InOrder(i, |fields|)) == EncodeMessage(fields[i..], m[i..]).value
    decreases |fields| - i
  {
    hide EncodeField;
    var chunks := InOrder(i, |fields|);
    if i < |fields| {
      EncodedParts(fields, m, i);
      EncodedInOrder(fields, m, i + 1);
      assert chunks[1..] == InOrder(i + 1, |fields|);
      assert ChunkOk(fields, m, Known(i));
      forall k | 0 <= k < |chunks|
        ensures ChunkOk(fields, m, chunks[k])
      {
        if k > 0 { assert chunks[k] == chunks[1..][k - 1]; }
      }
    }
  }

  lemma {:induction false} MessageInverts(fields: seq<Field>, m: Message)
    requires FieldsOk(fields) && MessageOk(fields, m)
    requires EncodeMessage(fields, m).Some? && |EncodeMessage(fields, m).value| < TWO_32
    ensures Decode(fields, EncodeMessage(fields, m).value) == if Terminated(fields, m) then Some(m) else None
    decreases fields, 4, 0
  {
    hide EncodeField, SlotTerminated, Terminated, FieldsOk, MessageOk, Decode;
    assert fields[0..] == fields && m[0..] == m;
    EncodedInOrder(fields, m, 0);
    var chunks := InOrder(0, |fields|);
    forall i | 0 <= i < |fields|
      ensures i in Indexes(chunks)
    {
      assert chunks[i] in chunks;
    }
    AnyOrder(fields, m, chunks);
  }

  /**
   * The decoder gives back what was encoded: all of it, for every tree of descriptors, when and only when each string
   * that is there has its NUL.
   */
  lemma {:induction false} RoundTrip(fields: seq<Field>, m: Message)
    requires FieldsOk(fields) && MessageOk(fields, m)
    requires EncodeMessage(fields, m).Some? && |EncodeMessage(fields, m).value| < TWO_32
    ensures Decode(fields, EncodeMessage(fields, m).value) == Some(m) <==> Terminated(fields, m)
  {
    MessageInverts(fields, m);
  }

  lemma {:induction false} OneField(fields: seq<Field>, m: Message, tag: Bytes, item: Bytes)
    requires |fields| == 1 && fields[0].rule.Required? && |m| == 1 && |m[0]| == 1
    requires tag == FieldTag(WireType(fields[0].ltype), fields[0].tag)
    requires EncodeItem(fields[0].ltype, m[0][0]) == Some(item)
    ensures EncodeMessage(fields, m) == Some(tag + item)
  {
    assert EncodeMessage(fields[1..], m[1..]) == Some([]);
    var b := tag + item;
    assert EncodeField(fields[0], m[0]) == Some(b);
    assert b + [] == b;
  }

  /** Such a string: it fills its array, is encoded, and is refused by the decoder. */
  lemma {:induction false} UnterminatedIsLost()
    ensures var fields, m := [Field(1, Required, StringT(2), Slot(0, 2, None))], [[Data([65, 66])]];
            && FieldsOk(fields) && MessageOk(fields, m)
            && EncodeMessage(fields, m) == Some([10, 2, 65, 66]) && Decode(fields, [10, 2, 65, 66]) == None
  {
    var fields, m := [Field(1, Required, StringT(2), Slot(0, 2, None))], [[Data([65, 66])]];
    var e: Bytes := [10, 2, 65, 66];
    assert fields[1..] == [] && m[1..] == [];
    assert WithLength([65, 66]) == [2, 65, 66] && FieldTag(2, 1) == [10];
    assert EncodeItem(StringT(2), Data([65, 66])) == Some([2, 65, 66]) && WireType(StringT(2)) == 2;
    OneField(fields, m, [10], [2, 65, 66]);
    assert [10] + [2, 65, 66] == e;
    assert SlotOk(fields[0], m[0]);
    assert !SlotTerminated(fields[0], m[0]) by { assert !ItemTerminated(StringT(2), m[0][0]); }
    MessageInverts(fields, m);
  }
}
