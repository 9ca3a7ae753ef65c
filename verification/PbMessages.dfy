/**
 * Messages of the nanopb codec and their bytes (pb.h, pb_encode.c, pb_decode.c): what a table of field descriptors
 * makes of a message, and what it makes of some input. Fields are in the message struct itself (static allocation).
 */
module PbMessages {
  import opened Wrappers
  import opened InternalKeys
  import opened Coding

  /**
   * How often a field is there: Optional has a flag of its own and Singular is there when it is not zero; Repeated has a
   * count, up to the size of its array, and FixedCount fills its array. The members of a union share their storage.
   */
  datatype Rule = Required | Optional | Singular | Repeated(max: nat) | FixedCount(max: nat) | OneOf(union: nat)

  /** Sizes are those of the C types, in bytes; `room` is what a bytes array holds behind its length. */
  datatype LType =
    | BoolT | IntT(size: nat) | UIntT(size: nat) | SIntT(size: nat) | Fixed32T | Fixed64T
    | BytesT(room: nat) | StringT(size: nat) | MessageT(fields: seq<Field>) | InlineT(size: nat)

  /** Where the C struct keeps a field: its offset, the size of one element, and the offset of its flag, count or tag. */
  datatype Slot = Slot(offset: nat, size: nat, flag: Option<nat>)

  datatype Field = Field(tag: nat, rule: Rule, ltype: LType, slot: Slot)

  /** The bytes of a string are those before its NUL, or all of its array when there is none. */
  datatype Value = Num(n: int) | Data(bytes: Bytes) | Msg(slots: Message)

  /** For each field, in the order of the descriptors, the values there are of it. */
  type Message = seq<seq<Value>>

  // Numbers

  predicate SizeOk(size: nat) { size == 1 || size == 2 || size == 4 || size == 8 }

  /** Half of what a C integer of a size can hold. */
  function Half(size: nat): int {
    if size == 1 then 0x80 else if size == 2 then 0x8000 else if size == 4 then 0x8000_0000 else 0x8000_0000_0000_0000
  }

  function ToU64(n: int): int { if n < 0 then n + TWO_64 else n }

  function ToI64(u: int): int { if u >= Half(8) then u - TWO_64 else u }

  function ToI32(u: int): int {
    var low := u % TWO_32;
    if low >= Half(4) then low - TWO_32 else low
  }

  function ZigZag(n: int): int { if n < 0 then -2 * n - 1 else 2 * n }

  function UnZigZag(u: int): int { if u % 2 == 1 then -(u / 2) - 1 else u / 2 }

  predicate InRange(lt: LType, n: int) {
    match lt
    case BoolT => n == 0 || n == 1
    case IntT(size) => -Half(size) <= n < Half(size)
    case UIntT(size) => 0 <= n < 2 * Half(size)
    case SIntT(size) => -Half(size) <= n < Half(size)
    case Fixed32T => 0 <= n < TWO_32
    case Fixed64T => 0 <= n < TWO_64
    case _ => false
  }

  predicate IsNumber(lt: LType) {
    lt.BoolT? || lt.IntT? || lt.UIntT? || lt.SIntT? || lt.Fixed32T? || lt.Fixed64T?
  }

  // Descriptors and values that fit them

  ghost predicate TypeOk(lt: LType) {
    match lt
    case IntT(size) => SizeOk(size)
    case UIntT(size) => SizeOk(size)
    case SIntT(size) => SizeOk(size)
    case StringT(size) => size > 0
    case InlineT(size) => size < TWO_32
    case MessageT(fields) => FieldsOk(fields)
    case _ => true
  }

  ghost predicate FieldOk(f: Field) { 0 < f.tag < 0x2000_0000 && TypeOk(f.ltype) }

  /** Field numbers differ and leave room for the wire type in 32 bits. */
  ghost predicate FieldsOk(fields: seq<Field>) {
    && (forall i :: 0 <= i < |fields| ==> FieldOk(fields[i]))
    && (forall i, j :: 0 <= i < j < |fields| ==> fields[i].tag != fields[j].tag)
  }

  ghost predicate ValueOk(lt: LType, v: Value) {
    match lt
    case BytesT(_) => v.Data?
    case StringT(size) => v.Data? && |v.bytes| <= size && 0 !in v.bytes
    case InlineT(size) => v.Data? && |v.bytes| == size
    case MessageT(fields) => v.Msg? && MessageOk(fields, v.slots)
    case _ => v.Num? && InRange(lt, v.n)
  }

  ghost predicate CountOk(rule: Rule, n: nat) {
    match rule
    case Required => n == 1
    case Singular => n == 1
    case Optional => n <= 1
    case OneOf(_) => n <= 1
    case FixedCount(max) => n == max
    case Repeated(_) => true
  }

  ghost predicate SlotOk(f: Field, slot: seq<Value>) {
    CountOk(f.rule, |slot|) && forall k :: 0 <= k < |slot| ==> ValueOk(f.ltype, slot[k])
  }

  ghost predicate MessageOk(fields: seq<Field>, m: Message) {
    && |m| == |fields|
    && (forall i :: 0 <= i < |fields| ==> SlotOk(fields[i], m[i]))
    && UnionsOk(fields, m)
  }

  predicate SameUnion(a: Rule, b: Rule) { a.OneOf? && a == b }

  /** At most one member of a union is there. */
  ghost predicate UnionsOk(fields: seq<Field>, m: Message)
    requires |m| == |fields|
  {
    forall i, j :: 0 <= i < |fields| && 0 <= j < |fields| && i != j && SameUnion(fields[i].rule, fields[j].rule) ==>
      m[i] == [] || m[j] == []
  }

  // Zero values

  function Zero(lt: LType): Value {
    match lt
    case BytesT(_) => Data([])
    case StringT(_) => Data([])
    case InlineT(size) => Data(seq(size, _ => 0))
    case MessageT(fields) => Msg(Zeros(fields))
    case _ => Num(0)
  }

  function ZeroSlot(f: Field): seq<Value> {
    if f.rule.Required? || f.rule.Singular? then [Zero(f.ltype)] else []
  }

  /** pb_message_set_to_defaults. */
  function Zeros(fields: seq<Field>): (m: Message)
    ensures |m| == |fields| && forall i :: 0 <= i < |fields| ==> m[i] == ZeroSlot(fields[i])
  {
    if fields == [] then [] else [ZeroSlot(fields[0])] + Zeros(fields[1..])
  }

  /** pb_check_proto3_default_value: of a field without a flag. */
  predicate IsZero(lt: LType, v: Value) {
    match lt
    case BytesT(_) => v.Data? && v.bytes == []
    case StringT(_) => v.Data? && v.bytes == []
    case InlineT(size) => size == 0
    case MessageT(fields) => v.Msg? && AllZero(fields, v.slots)
    case _ => v.Num? && v.n == 0
  }

  predicate IsZeroSlot(f: Field, slot: seq<Value>) {
    match f.rule
    case Required => false
    case FixedCount(_) => false
    case Singular => |slot| == 1 && IsZero(f.ltype, slot[0])
    case _ => slot == []
  }

  predicate AllZero(fields: seq<Field>, m: Message) {
    |m| == |fields| && (fields == [] || (IsZeroSlot(fields[0], m[0]) && AllZero(fields[1..], m[1..])))
  }

  // Encoding

  function WireType(lt: LType): nat {
    match lt
    case Fixed32T => 5
    case Fixed64T => 1
    case BytesT(_) => 2
    case StringT(_) => 2
    case MessageT(_) => 2
    case InlineT(_) => 2
    case _ => 0
  }

  function FieldTag(wire: nat, tag: nat): Bytes { Varint(tag * 8 + wire) }

  function EncodeNumber(lt: LType, n: int): Option<Bytes> {
    match lt
    case BoolT => Some(Varint(if n == 0 then 0 else 1))
    case IntT(size) => if SizeOk(size) && ToU64(n) >= 0 then Some(Varint(ToU64(n))) else None
    case UIntT(size) => if SizeOk(size) && n >= 0 then Some(Varint(n)) else None
    case SIntT(size) => if SizeOk(size) then Some(Varint(ZigZag(n))) else None
    case Fixed32T => if n >= 0 then Some(Fixed(n, 4)) else None
    case Fixed64T => if n >= 0 then Some(Fixed(n, 8)) else None
    case _ => None
  }

  function WithLength(b: Bytes): Bytes { Varint(|b|) + b }

  /** A value without its tag, or nothing where the code fails. */
  function EncodeItem(lt: LType, v: Value): Option<Bytes>
    decreases lt, 0
  {
    match lt
    case BytesT(room) => if v.Data? && |v.bytes| <= room then Some(WithLength(v.bytes)) else None
    case StringT(_) => if v.Data? then Some(WithLength(v.bytes)) else None
    case InlineT(_) => if v.Data? then Some(WithLength(v.bytes)) else None
    case MessageT(fields) =>
      if !v.Msg? then None
      else
        var b := EncodeMessage(fields, v.slots);
        if b.None? then None else Some(WithLength(b.value))
    case _ => if v.Num? then EncodeNumber(lt, v.n) else None
  }

  function Then(a: Option<Bytes>, b: Option<Bytes>): Option<Bytes> {
    if a.Some? && b.Some? then Some(a.value + b.value) else None
  }

  function Tagged(f: Field, v: Value): Option<Bytes>
    decreases f, 0
  {
    Then(Some(FieldTag(WireType(f.ltype), f.tag)), EncodeItem(f.ltype, v))
  }

  function EncodeItems(lt: LType, slot: seq<Value>): Option<Bytes>
    decreases lt, |slot| + 1
  {
    if slot == [] then Some([]) else Then(EncodeItem(lt, slot[0]), EncodeItems(lt, slot[1..]))
  }

  function EncodeTagged(f: Field, slot: seq<Value>): Option<Bytes>
    decreases f, |slot| + 1
  {
    if slot == [] then Some([]) else Then(Tagged(f, slot[0]), EncodeTagged(f, slot[1..]))
  }

  /** encode_array: numbers are packed. */
  function EncodeArray(f: Field, max: nat, slot: seq<Value>): Option<Bytes>
    decreases f, |slot| + 2
  {
    if slot == [] then Some([])
    else if |slot| > max then None
    else if IsNumber(f.ltype) then
      var b := EncodeItems(f.ltype, slot);
      if b.None? then None else Some(FieldTag(2, f.tag) + WithLength(b.value))
    else EncodeTagged(f, slot)
  }

  function EncodeField(f: Field, slot: seq<Value>): Option<Bytes>
    decreases f, |slot| + 3
  {
    match f.rule
    case Required => if |slot| == 1 then Tagged(f, slot[0]) else None
    case Singular => if |slot| != 1 then None else if IsZero(f.ltype, slot[0]) then Some([]) else Tagged(f, slot[0])
    case Repeated(max) => EncodeArray(f, max, slot)
    case FixedCount(max) => EncodeArray(f, max, slot)
    case _ => if slot == [] then Some([]) else if |slot| == 1 then Tagged(f, slot[0]) else None
  }

  function EncodeMessage(fields: seq<Field>, m: Message): Option<Bytes> {
    if |m| != |fields| then None
    else if fields == [] then Some([])
    else Then(EncodeField(fields[0], m[0]), EncodeMessage(fields[1..], m[1..]))
  }

  // Decoding

  /**
   * pb_decode_varint32: bits from the thirty-third on may only be zero or repeat the sign; `shift` is the place of the
   * next seven bits.
   */
  function ReadVarint32(b: Bytes): (r: Option<Parsed<nat>>)
    ensures r.Some? ==> |r.value.rest| < |b| && r.value.value < TWO_32
  {
    if b == [] then None
    else if b[0] < 128 then Some(Parsed(b[0], b[1..]))
    else ReadMore32(b[1..], 7, b[0] - 128)
  }

  function ReadMore32(b: Bytes, shift: nat, result: nat): (r: Option<Parsed<nat>>)
    requires result < TWO_32
    ensures r.Some? ==> |r.value.rest| < |b| && r.value.value < TWO_32
  {
    if b == [] then None
    else
      var bits := b[0] % 128;
      if shift >= 32 && bits != 0 && (result < Half(4) || b[0] != if shift < 63 then 0xFF else 1) then None
      else
        var next := if shift >= 32 then result else (result + Power(2, shift) * bits) % TWO_32;
        if b[0] >= 128 then ReadMore32(b[1..], shift + 7, next)
        else if shift == 28 && b[0] / 16 % 8 != 0 then None
        else Some(Parsed(next, b[1..]))
  }

  function ReadBytes(b: Bytes, n: nat): Option<Parsed<Bytes>> {
    if |b| < n then None else Some(Parsed(b[..n], b[n..]))
  }

  /** pb_make_string_substream and pb_close_string_substream: the bytes behind a length. */
  function ReadString(b: Bytes): (r: Option<Parsed<Bytes>>)
    ensures r.Some? ==> |r.value.rest| + |r.value.value| < |b|
  {
    var n := ReadVarint32(b);
    if n.None? then None else ReadBytes(n.value.rest, n.value.value)
  }

  function SkipVarint(b: Bytes): (r: Option<Bytes>)
    ensures r.Some? ==> |r.value| < |b|
  {
    if b == [] then None else if b[0] < 128 then Some(b[1..]) else SkipVarint(b[1..])
  }

  /** pb_skip_field. */
  function Skip(wire: nat, b: Bytes): (r: Option<Bytes>)
    ensures r.Some? ==> |r.value| <= |b|
  {
    if wire == 0 then SkipVarint(b)
    else if wire == 1 then if |b| < 8 then None else Some(b[8..])
    else if wire == 2 then var r := ReadString(b); if r.None? then None else Some(r.value.rest)
    else if wire == 5 then if |b| < 4 then None else Some(b[4..])
    else None
  }

  function Read64(b: Bytes): (r: Option<Parsed<nat>>)
    ensures r.Some? ==> |r.value.rest| < |b| && r.value.value < TWO_64
  {
    DecodeVarintConsumes(b, 10);
    match GetVarint64(b)
    case None => None
    case Some(p) => Some(Parsed(p.value, p.rest))
  }

  /** The field decoders of numbers: what does not fit the C type is an error. */
  function FromWire(lt: LType, u: nat): Option<int> {
    match lt
    case IntT(size) =>
      var n := if size == 8 then ToI64(u) else ToI32(u);
      if SizeOk(size) && InRange(lt, n) then Some(n) else None
    case UIntT(size) => if SizeOk(size) && InRange(lt, u) then Some(u) else None
    case SIntT(size) => if SizeOk(size) && InRange(lt, UnZigZag(u)) then Some(UnZigZag(u)) else None
    case _ => None
  }

  function DecodeNumber(lt: LType, b: Bytes): (r: Option<Parsed<int>>)
    ensures r.Some? ==> |r.value.rest| < |b|
  {
    match lt
    case BoolT =>
      var r := ReadVarint32(b);
      if r.None? then None else Some(Parsed(if r.value.value == 0 then 0 else 1, r.value.rest))
    case Fixed32T => if |b| < 4 then None else Some(Parsed(DecodeFixed(b[..4]), b[4..]))
    case Fixed64T => if |b| < 8 then None else Some(Parsed(DecodeFixed(b[..8]), b[8..]))
    case _ =>
      var r := Read64(b);
      if r.None? then None
      else
        var n := FromWire(lt, r.value.value);
        if n.None? then None else Some(Parsed(n.value, r.value.rest))
  }

  function BeforeNul(b: Bytes): Bytes {
    if b == [] || b[0] == 0 then [] else [b[0]] + BeforeNul(b[1..])
  }

  /** What the bytes behind a length are to a field; a string needs room for its NUL. */
  function FromString(lt: LType, s: Bytes): Option<Value> {
    match lt
    case BytesT(room) => if |s| <= room then Some(Data(s)) else None
    case StringT(size) => if |s| < size then Some(Data(BeforeNul(s))) else None
    case InlineT(size) => if s == [] then Some(Zero(lt)) else if |s| == size then Some(Data(s)) else None
    case _ => None
  }

  /** A value, over the one that was there; a submessage is merged into it. */
  function DecodeItem(lt: LType, was: Value, b: Bytes): (r: Option<Parsed<Value>>)
    ensures r.Some? ==> |r.value.rest| < |b|
    decreases |b|, 0
  {
    if IsNumber(lt) then
      var n := DecodeNumber(lt, b);
      if n.None? then None else Some(Parsed(Num(n.value.value), n.value.rest))
    else
      var s := ReadString(b);
      if s.None? then None
      else if lt.MessageT? then
        var m := DecodeMessage(lt.fields, if was.Msg? then was.slots else [], s.value.value);
        if m.None? then None else Some(Parsed(Msg(m.value), s.value.rest))
      else
        var v := FromString(lt, s.value.value);
        if v.None? then None else Some(Parsed(v.value, s.value.rest))
  }

  /** The numbers of a packed array, while there is room for them. */
  function DecodePacked(lt: LType, max: nat, slot: seq<Value>, b: Bytes): Option<seq<Value>>
    decreases |b|
  {
    if b == [] then Some(slot)
    else if |slot| >= max then None
    else
      var n := DecodeNumber(lt, b);
      if n.None? then None else DecodePacked(lt, max, slot + [Num(n.value.value)], n.value.rest)
  }

  function Single(r: Option<Parsed<Value>>): Option<Parsed<seq<Value>>> {
    if r.None? then None else Some(Parsed([r.value.value], r.value.rest))
  }

  /** decode_static_field: what the field holds after one occurrence more. */
  function DecodeField(f: Field, wire: nat, slot: seq<Value>, b: Bytes): (r: Option<Parsed<seq<Value>>>)
    ensures r.Some? ==> |r.value.rest| < |b|
    decreases |b|, 2
  {
    match f.rule
    case Repeated(max) => DecodeElement(f.ltype, max, wire, slot, b)
    case FixedCount(max) => DecodeElement(f.ltype, max, wire, slot, b)
    case OneOf(_) => Single(DecodeItem(f.ltype, Zero(f.ltype), b))
    case _ => Single(DecodeItem(f.ltype, if slot == [] then Zero(f.ltype) else slot[0], b))
  }

  function DecodeElement(lt: LType, max: nat, wire: nat, slot: seq<Value>, b: Bytes): (r: Option<Parsed<seq<Value>>>)
    ensures r.Some? ==> |r.value.rest| < |b|
    decreases |b|, 1
  {
    if wire == 2 && IsNumber(lt) then
      var s := ReadString(b);
      if s.None? then None
      else
        var packed := DecodePacked(lt, max, slot, s.value.value);
        if packed.None? then None else Some(Parsed(packed.value, s.value.rest))
    else if |slot| >= max then None
    else
      var r := DecodeItem(lt, Zero(lt), b);
      if r.None? then None else Some(Parsed(slot + [r.value.value], r.value.rest))
  }

  const MAX_REQUIRED_FIELDS: nat := 64

  /** The struct, the required fields seen, and the array of fixed count that is being filled. */
  datatype Decoding = Decoding(slots: Message, seen: set<nat>, filling: Option<nat>)

  function FindField(fields: seq<Field>, tag: nat): (r: Option<nat>)
    ensures r.Some? ==> r.value < |fields| && fields[r.value].tag == tag
  {
    if fields == [] then None
    else if fields[0].tag == tag then Some(0)
    else
      var r := FindField(fields[1..], tag);
      if r.None? then None else Some(r.value + 1)
  }

  /** How many required fields there are before one. */
  function RequiredIndex(fields: seq<Field>, i: nat): nat
    requires i <= |fields|
  {
    if i == 0 then 0 else RequiredIndex(fields, i - 1) + if fields[i - 1].rule.Required? then 1 else 0
  }

  /** A member of a union takes the place of the others. */
  function Stored(fields: seq<Field>, slots: Message, i: nat, slot: seq<Value>): Message
    requires i < |fields| == |slots|
  {
    seq(|slots|, (j: nat) requires j < |slots| =>
      if j == i then slot else if SameUnion(fields[i].rule, fields[j].rule) then [] else slots[j])
  }

  predicate Filled(fields: seq<Field>, d: Decoding) {
    d.filling.Some? ==>
      d.filling.value < |fields| && d.filling.value < |d.slots| && fields[d.filling.value].rule.FixedCount? &&
      |d.slots[d.filling.value]| == fields[d.filling.value].rule.max
  }

  /** What is noted before a field is decoded: an array of fixed count is filled from the start. */
  function Noted(fields: seq<Field>, d: Decoding, i: nat): Option<Decoding>
    requires i < |fields| == |d.slots|
  {
    var r := RequiredIndex(fields, i);
    var seen := if fields[i].rule.Required? && r < MAX_REQUIRED_FIELDS then d.seen + {r} else d.seen;
    if !fields[i].rule.FixedCount? || d.filling == Some(i) then Some(d.(seen := seen))
    else if !Filled(fields, d) then None
    else Some(Decoding(d.slots[i := []], seen, Some(i)))
  }

  /** In a message type without fields, the end mark of the table, which has number zero, is taken for a bool. */
  function SkipUnknown(fields: seq<Field>, number: nat, wire: nat, b: Bytes): (r: Option<Bytes>)
    ensures r.Some? ==> |r.value| <= |b|
  {
    if fields == [] && number == 0 then
      var r := ReadVarint32(b);
      if r.None? then None else Some(r.value.rest)
    else Skip(wire, b)
  }

  /** One field of the input. */
  function Occurrence(fields: seq<Field>, d: Decoding, i: nat, wire: nat, b: Bytes): (r: Option<Parsed<Decoding>>)
    requires i < |fields| == |d.slots|
    ensures r.Some? ==> |r.value.value.slots| == |fields| && |r.value.rest| < |b|
    decreases |b|, 3
  {
    var n := Noted(fields, d, i);
    if n.None? then None
    else
      var s := DecodeField(fields[i], wire, n.value.slots[i], b);
      if s.None? then None
      else Some(Parsed(n.value.(slots := Stored(fields, n.value.slots, i, s.value.value)), s.value.rest))
  }

  /** The loop of pb_decode_noinit; a zero tag ends the message. */
  function DecodeFields(fields: seq<Field>, d: Decoding, b: Bytes): (r: Option<Decoding>)
    requires |d.slots| == |fields|
    ensures r.Some? ==> |r.value.slots| == |fields|
    decreases |b|, 4
  {
    if b == [] then Some(d)
    else
      var t := ReadVarint32(b);
      if t.None? then None
      else if t.value.value == 0 then Some(d)
      else
        var i := FindField(fields, t.value.value / 8);
        if i.None? then
          var rest := SkipUnknown(fields, t.value.value / 8, t.value.value % 8, t.value.rest);
          if rest.None? then None else DecodeFields(fields, d, rest.value)
        else
          var p := Occurrence(fields, d, i.value, t.value.value % 8, t.value.rest);
          if p.None? then None else DecodeFields(fields, p.value.value, p.value.rest)
  }

  /** The checks at the end: the last array of fixed count, and the first required fields. */
  predicate Complete(fields: seq<Field>, d: Decoding) {
    Filled(fields, d) && forall r :: 0 <= r < RequiredIndex(fields, |fields|) && r < MAX_REQUIRED_FIELDS ==> r in d.seen
  }

  /** pb_decode_noinit. */
  function DecodeMessage(fields: seq<Field>, was: Message, b: Bytes): Option<Message>
    decreases |b|, 5
  {
    if |was| != |fields| then None
    else
      var d := DecodeFields(fields, Decoding(was, {}, None), b);
      if d.None? || !Complete(fields, d.value) then None else Some(d.value.slots)
  }

  /** pb_decode. */
  function Decode(fields: seq<Field>, b: Bytes): Option<Message> {
    DecodeMessage(fields, Zeros(fields), b)
  }
}
