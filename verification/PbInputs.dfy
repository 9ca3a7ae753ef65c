/**
 * What the decoder makes of inputs the encoder does not write (pb_decode.c): fields that are missing or come more than
 * once, arrays in pieces, arrays that are too long or too short, and numbers in other forms.
 */
module PbInputs {
  import opened Wrappers
  import opened InternalKeys
  import opened Coding
  import opened PbMessages
  import opened PbRoundTrip

  // Required fields

  lemma {:induction false} RequiredGrows(fields: seq<Field>, i: nat, j: nat)
    requires i <= j <= |fields|
    ensures RequiredIndex(fields, i) <= RequiredIndex(fields, j)
    ensures i < j && fields[i].rule.Required? ==> RequiredIndex(fields, i) < RequiredIndex(fields, j)
    decreases j
  {
    if i < j { RequiredGrows(fields, i, j - 1); }
  }

  /** Whatever else there is and in whatever order: without one of the first 64 required fields a message is refused. */
  lemma MissingIsRefused(fields: seq<Field>, m: Message, chunks: seq<Chunk>, i: nat)
    requires FieldsOk(fields) && MessageOk(fields, m) && ChunksOk(fields, m, chunks)
    requires i < |fields| && fields[i].rule.Required? && RequiredIndex(fields, i) < 64 && i !in Indexes(chunks)
    ensures Decode(fields, BytesOf(fields, m, chunks)) == None
  {
    hide FieldsOk, SlotOk, UnionsOk, ChunksOk, DecodeFields, ChunksInverted, Complete, AllTerminated;
    var d := Decoding(Zeros(fields), {}, None);
    var end := ChunksInvert(fields, m, {}, chunks, d, []);
    ChunksEnd(fields, m, chunks, d, end);
    if AllTerminated(fields, m, chunks) {
      assert {} + Indexes(chunks) == Indexes(chunks);
      NotComplete(fields, Indexes(chunks), end, i);
    }
  }

  lemma NotComplete(fields: seq<Field>, done: set<nat>, end: Decoding, i: nat)
    requires i < |fields| == |end.slots| && OnlySeen(fields, done, end.seen)
    requires fields[i].rule.Required? && RequiredIndex(fields, i) < 64 && i !in done
    ensures !Complete(fields, end)
  {
    RequiredGrows(fields, i, |fields|);
    forall j | 0 <= j < |fields| && j in done && Counts(fields, j)
      ensures RequiredIndex(fields, j) != RequiredIndex(fields, i)
    {
      if j < i { RequiredGrows(fields, j, i); } else { RequiredGrows(fields, i, j); }
    }
    assert RequiredIndex(fields, i) !in end.seen;
  }

  // Fields that come more than once

  /** A field that is there once at most. */
  predicate IsSingle(f: Field) { f.rule.Required? || f.rule.Singular? || f.rule.Optional? || f.rule.OneOf? }

  /** The decoder's state once a single field has been read. */
  function Taken(fields: seq<Field>, d: Decoding, i: nat, v: Value): (t: Decoding)
    requires i < |fields| == |d.slots|
    ensures |t.slots| == |fields|
  {
    Decoding(Stored(fields, d.slots, i, [v]), if Counts(fields, i) then d.seen + {RequiredIndex(fields, i)} else d.seen,
             d.filling)
  }

  /** The bytes of a single field. */
  ghost predicate IsBytesOf(f: Field, v: Value, b: Bytes) {
    && TypeOk(f.ltype) && ValueOk(f.ltype, v) && ItemTerminated(f.ltype, v)
    && Tagged(f, v) == Some(b) && EncodeItem(f.ltype, v).Some? && |EncodeItem(f.ltype, v).value| < TWO_32
  }

  /** A single field sets its slot, and clears those of its union. */
  lemma SingleIsTaken(fields: seq<Field>, d: Decoding, i: nat, v: Value, b: Bytes, rest: Bytes)
    requires FieldsOk(fields) && i < |fields| == |d.slots| && IsSingle(fields[i]) && IsBytesOf(fields[i], v, b)
    requires !fields[i].ltype.MessageT? || fields[i].rule.OneOf?
    ensures DecodeFields(fields, d, b + rest) == DecodeFields(fields, Taken(fields, d, i, v), rest)
  {
    hide FieldsOk, TypeOk, ValueOk, ItemTerminated, EncodeItem, FieldTag, DecodeItem, Stored;
    var f := fields[i];
    var item, wire := EncodeItem(f.ltype, v).value, WireType(f.ltype);
    assert b + rest == FieldTag(wire, f.tag) + (item + rest);
    Occurs(fields, d, i, wire, item + rest);
    ItemInverts(f.ltype, v, rest);
    var was := if f.rule.OneOf? || d.slots[i] == [] then Zero(f.ltype) else d.slots[i][0];
    StartIsLost(f.ltype, was, item + rest);
    assert DecodeField(f, wire, d.slots[i], item + rest) == Some(Parsed([v], rest));
    hide DecodeFields, DecodeField;
    assert Occurrence(fields, d, i, wire, item + rest) == Some(Parsed(Taken(fields, d, i, v), rest));
  }

  /** Only a submessage depends on what was there. */
  lemma StartIsLost(lt: LType, was: Value, b: Bytes)
    requires !lt.MessageT? || was == Zero(lt)
    ensures DecodeItem(lt, was, b) == DecodeItem(lt, Zero(lt), b)
  {
  }

  lemma TakenTwice(fields: seq<Field>, d: Decoding, i: nat, v: Value, j: nat, w: Value)
    requires i < |fields| == |d.slots| && j < |fields|
    requires i == j || (SameUnion(fields[i].rule, fields[j].rule))
    ensures Taken(fields, Taken(fields, d, i, v), j, w) == Taken(fields, d, j, w)
  {
    var a, b := Taken(fields, Taken(fields, d, i, v), j, w), Taken(fields, d, j, w);
    assert a.slots == b.slots;
    assert a.seen == b.seen;
  }

  /** Of a field that comes twice the last counts, as if the first had not been there. */
  lemma LastCounts(fields: seq<Field>, d: Decoding, i: nat, v: Value, b: Bytes, w: Value, c: Bytes, rest: Bytes)
    requires FieldsOk(fields) && i < |fields| == |d.slots| && IsSingle(fields[i])
    requires IsBytesOf(fields[i], v, b) && IsBytesOf(fields[i], w, c)
    requires !fields[i].ltype.MessageT? || fields[i].rule.OneOf?
    ensures DecodeFields(fields, d, b + c + rest) == DecodeFields(fields, d, c + rest)
  {
    hide FieldsOk, IsBytesOf, DecodeFields, Taken;
    assert b + c + rest == b + (c + rest);
    SingleIsTaken(fields, d, i, v, b, c + rest);
    SingleIsTaken(fields, Taken(fields, d, i, v), i, w, c, rest);
    SingleIsTaken(fields, d, i, w, c, rest);
    TakenTwice(fields, d, i, v, i, w);
  }

  /** Of two members of a union the last counts, and it alone is there then. */
  lemma LastOfUnionCounts(fields: seq<Field>, d: Decoding, i: nat, v: Value, b: Bytes, j: nat, w: Value, c: Bytes,
                          rest: Bytes)
    requires FieldsOk(fields) && i < |fields| == |d.slots| && j < |fields| && i != j
    requires SameUnion(fields[i].rule, fields[j].rule) && IsBytesOf(fields[i], v, b) && IsBytesOf(fields[j], w, c)
    ensures DecodeFields(fields, d, b + c + rest) == DecodeFields(fields, d, c + rest)
    ensures var slots := Taken(fields, d, j, w).slots;
            && DecodeFields(fields, d, c + rest) == DecodeFields(fields, Taken(fields, d, j, w), rest)
            && slots[j] == [w]
            && forall k :: 0 <= k < |fields| && k != j ==>
                 slots[k] == if SameUnion(fields[j].rule, fields[k].rule) then [] else d.slots[k]
  {
    hide FieldsOk, IsBytesOf, DecodeFields;
    assert b + c + rest == b + (c + rest);
    SingleIsTaken(fields, d, i, v, b, c + rest);
    SingleIsTaken(fields, Taken(fields, d, i, v), j, w, c, rest);
    SingleIsTaken(fields, d, j, w, c, rest);
    TakenTwice(fields, d, i, v, j, w);
  }

  // Submessages

  /** What a submessage is read onto: what is there, or its defaults. */
  function Start(f: Field, slot: seq<Value>): Message
    requires f.ltype.MessageT?
  {
    if slot == [] then Zeros(f.ltype.fields) else if slot[0].Msg? then slot[0].slots else []
  }

  /** A submessage is read onto the one that is there: what it does not mention stays. */
  lemma SubmessageIsMerged(fields: seq<Field>, d: Decoding, i: nat, s: Bytes, rest: Bytes)
    requires FieldsOk(fields) && i < |fields| == |d.slots| && IsSingle(fields[i]) && !fields[i].rule.OneOf?
    requires fields[i].ltype.MessageT? && |s| < TWO_32
    ensures var f := fields[i];
            var m := DecodeMessage(f.ltype.fields, Start(f, d.slots[i]), s);
            DecodeFields(fields, d, FieldTag(2, f.tag) + WithLength(s) + rest)
            == if m.None? then None else DecodeFields(fields, Taken(fields, d, i, Msg(m.value)), rest)
  {
    hide FieldsOk, FieldTag, WithLength, Stored, DecodeMessage, DecodeFields, Occurrence;
    var f, body := fields[i], WithLength(s) + rest;
    assert FieldTag(2, f.tag) + WithLength(s) + rest == FieldTag(2, f.tag) + body;
    Occurs(fields, d, i, 2, body);
    ReadStringInverts(s, rest);
    MergedIn(f, d.slots[i], body, s, rest);
    hide ReadString, DecodeField;
    assert Noted(fields, d, i).Some? && Noted(fields, d, i).value.slots == d.slots;
    OccurrenceIs(fields, d, i, 2, body);
  }

  lemma MergedIn(f: Field, slot: seq<Value>, b: Bytes, s: Bytes, rest: Bytes)
    requires IsSingle(f) && !f.rule.OneOf? && f.ltype.MessageT? && ReadString(b) == Some(Parsed(s, rest))
    ensures var m := DecodeMessage(f.ltype.fields, Start(f, slot), s);
            DecodeField(f, 2, slot, b) == if m.None? then None else Some(Parsed([Msg(m.value)], rest))
  {
    hide ReadString, DecodeMessage;
  }

  lemma OccurrenceIs(fields: seq<Field>, d: Decoding, i: nat, wire: nat, b: Bytes)
    requires i < |fields| == |d.slots| && !fields[i].rule.FixedCount?
    ensures var s := DecodeField(fields[i], wire, d.slots[i], b);
            Occurrence(fields, d, i, wire, b)
            == if s.None? then None
               else Some(Parsed(Noted(fields, d, i).value.(slots := Stored(fields, d.slots, i, s.value.value)), s.value.rest))
  {
    hide DecodeField, Stored;
  }

  /** Of a submessage that comes twice the second is read onto the first. */
  lemma SubmessagesMerge(fields: seq<Field>, d: Decoding, i: nat, s: Bytes, t: Bytes, rest: Bytes)
    requires FieldsOk(fields) && i < |fields| == |d.slots| && IsSingle(fields[i]) && !fields[i].rule.OneOf?
    requires fields[i].ltype.MessageT? && |s| < TWO_32 && |t| < TWO_32
    ensures var f := fields[i];
            var first := DecodeMessage(f.ltype.fields, Start(f, d.slots[i]), s);
            var both := if first.None? then None else DecodeMessage(f.ltype.fields, first.value, t);
            DecodeFields(fields, d, FieldTag(2, f.tag) + WithLength(s) + (FieldTag(2, f.tag) + WithLength(t)) + rest)
            == if both.None? then None else DecodeFields(fields, Taken(fields, d, i, Msg(both.value)), rest)
  {
    hide FieldsOk, FieldTag, WithLength, Stored, DecodeMessage, DecodeFields;
    var f := fields[i];
    var a, b := FieldTag(2, f.tag) + WithLength(s), FieldTag(2, f.tag) + WithLength(t);
    assert a + b + rest == a + (b + rest);
    SubmessageIsMerged(fields, d, i, s, b + rest);
    var first := DecodeMessage(f.ltype.fields, Start(f, d.slots[i]), s);
    if first.Some? {
      var taken := Taken(fields, d, i, Msg(first.value));
      assert taken.slots[i] == [Msg(first.value)] by { TakenAt(fields, d, i, Msg(first.value)); }
      SubmessageIsMerged(fields, taken, i, t, rest);
      var both := DecodeMessage(f.ltype.fields, first.value, t);
      if both.Some? { TakenTwice(fields, d, i, Msg(first.value), i, Msg(both.value)); }
    }
  }

  lemma TakenAt(fields: seq<Field>, d: Decoding, i: nat, v: Value)
    requires i < |fields| == |d.slots|
    ensures Taken(fields, d, i, v).slots[i] == [v]
  {
  }

  // Arrays

  /** An array that is not of fixed count, with more elements. */
  function Longer(fields: seq<Field>, d: Decoding, i: nat, more: seq<Value>): (t: Decoding)
    requires i < |fields| == |d.slots|
    ensures |t.slots| == |fields|
  {
    d.(slots := d.slots[i := d.slots[i] + more])
  }

  lemma StoredAlone(fields: seq<Field>, slots: Message, i: nat, slot: seq<Value>)
    requires i < |fields| == |slots| && !fields[i].rule.OneOf?
    ensures Stored(fields, slots, i, slot) == slots[i := slot]
  {
  }

  /** An element on its own, packable or not, is added to the array; if the array is full the message is refused. */
  lemma ElementIsAdded(fields: seq<Field>, d: Decoding, i: nat, v: Value, b: Bytes, rest: Bytes)
    requires FieldsOk(fields) && i < |fields| == |d.slots| && fields[i].rule.Repeated? && IsBytesOf(fields[i], v, b)
    ensures DecodeFields(fields, d, b + rest) ==
            if |d.slots[i]| < fields[i].rule.max then DecodeFields(fields, Longer(fields, d, i, [v]), rest) else None
  {
    hide FieldsOk, TypeOk, ValueOk, ItemTerminated, EncodeItem, FieldTag, DecodeItem, Stored;
    var f := fields[i];
    var item, wire := EncodeItem(f.ltype, v).value, WireType(f.ltype);
    assert b + rest == FieldTag(wire, f.tag) + (item + rest);
    Occurs(fields, d, i, wire, item + rest);
    ItemInverts(f.ltype, v, rest);
    StoredAlone(fields, d.slots, i, d.slots[i] + [v]);
    hide DecodeFields;
    assert wire != 2 || !IsNumber(f.ltype);
    assert DecodeField(f, wire, d.slots[i], item + rest) ==
           if |d.slots[i]| < f.rule.max then Some(Parsed(d.slots[i] + [v], rest)) else None;
    hide DecodeField;
    assert Noted(fields, d, i) == Some(d);
  }

  lemma {:induction false} PackedIsAdded(lt: LType, max: nat, slot: seq<Value>, more: seq<Value>)
    requires TypeOk(lt) && IsNumber(lt) && |slot| <= max && forall j :: 0 <= j < |more| ==> ValueOk(lt, more[j])
    ensures EncodeItems(lt, more).Some?
    ensures DecodePacked(lt, max, slot, EncodeItems(lt, more).value) ==
            if |slot| + |more| <= max then Some(slot + more) else None
    decreases |more|
  {
    if more == [] {
      assert slot + more == slot;
    } else {
      var v, rest := more[0], more[1..];
      assert ValueOk(lt, v);
      if |slot| < max {
        PackedIsAdded(lt, max, slot + [v], rest);
        assert slot + [v] + rest == slot + more;
      } else {
        PackedIsAdded(lt, max, slot, rest);
      }
      NumberInverts(lt, v.n, EncodeItems(lt, rest).value);
      NumberIsThere(lt, v.n);
    }
  }

  lemma NumberIsThere(lt: LType, n: int)
    requires TypeOk(lt) && IsNumber(lt) && InRange(lt, n) && EncodeNumber(lt, n).Some?
    ensures EncodeNumber(lt, n).value != []
  {
  }

  /** Packed elements are added to the array; if there is no room for all of them the message is refused. */
  lemma PackIsAdded(fields: seq<Field>, d: Decoding, i: nat, more: seq<Value>, b: Bytes, rest: Bytes)
    requires FieldsOk(fields) && i < |fields| == |d.slots| && fields[i].rule.Repeated? && IsNumber(fields[i].ltype)
    requires |d.slots[i]| <= fields[i].rule.max && forall j :: 0 <= j < |more| ==> ValueOk(fields[i].ltype, more[j])
    requires EncodeItems(fields[i].ltype, more) == Some(b) && |b| < TWO_32
    ensures DecodeFields(fields, d, FieldTag(2, fields[i].tag) + WithLength(b) + rest) ==
            if |d.slots[i]| + |more| <= fields[i].rule.max then DecodeFields(fields, Longer(fields, d, i, more), rest) else None
  {
    hide FieldsOk, ValueOk, FieldTag, WithLength, ReadString, DecodePacked, Stored, EncodeItems;
    var f := fields[i];
    var body := WithLength(b) + rest;
    assert FieldTag(2, f.tag) + WithLength(b) + rest == FieldTag(2, f.tag) + body;
    Occurs(fields, d, i, 2, body);
    ReadStringInverts(b, rest);
    FieldIsOk(fields, i);
    PackedIsAdded(f.ltype, f.rule.max, d.slots[i], more);
    StoredAlone(fields, d.slots, i, d.slots[i] + more);
    hide DecodeFields;
    assert DecodeField(f, 2, d.slots[i], body) ==
           if |d.slots[i]| + |more| <= f.rule.max then Some(Parsed(d.slots[i] + more, rest)) else None;
    hide DecodeField;
    assert Noted(fields, d, i) == Some(d);
  }

  /**
   * An array of fixed count starts again, and the one before it has to have been filled; too many elements are refused
   * at once.
   */
  lemma FixedCountBegins(fields: seq<Field>, d: Decoding, i: nat, more: seq<Value>, b: Bytes, rest: Bytes)
    requires FieldsOk(fields) && i < |fields| == |d.slots| && fields[i].rule.FixedCount? && IsNumber(fields[i].ltype)
    requires d.filling != Some(i) && forall j :: 0 <= j < |more| ==> ValueOk(fields[i].ltype, more[j])
    requires EncodeItems(fields[i].ltype, more) == Some(b) && |b| < TWO_32
    ensures DecodeFields(fields, d, FieldTag(2, fields[i].tag) + WithLength(b) + rest) ==
            if Filled(fields, d) && |more| <= fields[i].rule.max
            then DecodeFields(fields, Decoding(d.slots[i := more], d.seen, Some(i)), rest) else None
  {
    hide FieldsOk, ValueOk, FieldTag, WithLength, ReadString, DecodePacked, Stored, EncodeItems, Filled;
    var f := fields[i];
    var body := WithLength(b) + rest;
    assert FieldTag(2, f.tag) + WithLength(b) + rest == FieldTag(2, f.tag) + body;
    Occurs(fields, d, i, 2, body);
    ReadStringInverts(b, rest);
    FieldIsOk(fields, i);
    PackedIsAdded(f.ltype, f.rule.max, [], more);
    assert [] + more == more;
    StoredAlone(fields, d.slots[i := []], i, more);
    assert d.slots[i := []][i := more] == d.slots[i := more];
    hide DecodeFields;
    assert DecodeField(f, 2, [], body) == if |more| <= f.rule.max then Some(Parsed(more, rest)) else None;
    hide DecodeField;
    assert Noted(fields, d, i) == if Filled(fields, d) then Some(Decoding(d.slots[i := []], d.seen, Some(i))) else None;
  }

  /** A message that ends in an array of fixed count with fewer elements is refused. */
  lemma ShortFixedCountIsRefused(fields: seq<Field>, m: Message, chunks: seq<Chunk>, i: nat, more: seq<Value>, b: Bytes)
    requires FieldsOk(fields) && MessageOk(fields, m) && ChunksOk(fields, m, chunks) && i < |fields|
    requires fields[i].rule.FixedCount? && IsNumber(fields[i].ltype) && i !in Indexes(chunks)
    requires |more| != fields[i].rule.max && forall j :: 0 <= j < |more| ==> ValueOk(fields[i].ltype, more[j])
    requires EncodeItems(fields[i].ltype, more) == Some(b) && |b| < TWO_32
    ensures Decode(fields, BytesOf(fields, m, chunks) + (FieldTag(2, fields[i].tag) + WithLength(b))) == None
  {
    hide FieldsOk, ChunksOk, DecodeFields, FieldTag, WithLength, EncodeItems, ValueOk, EncodeField;
    var d := Decoding(Zeros(fields), {}, None);
    var tail := FieldTag(2, fields[i].tag) + WithLength(b);
    var end := ChunksInvert(fields, m, {}, chunks, d, tail);
    if AllTerminated(fields, m, chunks) {
      assert {} + Indexes(chunks) == Indexes(chunks);
      assert end.filling != Some(i);
      FixedCountBegins(fields, end, i, more, b, []);
      assert tail + [] == tail;
      NothingMore(fields, Decoding(end.slots[i := more], end.seen, Some(i)));
    }
  }

  lemma NothingMore(fields: seq<Field>, d: Decoding)
    requires |d.slots| == |fields|
    ensures DecodeFields(fields, d, []) == Some(d)
  {
  }

  // Strings

  /** What the bytes behind a length are to each kind of string: up to its first NUL, or whole, if there is room. */
  lemma FromStringExactly(lt: LType, s: Bytes, v: Bytes)
    ensures lt.StringT? ==>
      (FromString(lt, s) == Some(Data(v))
       <==> |s| < lt.size && v <= s && 0 !in v && (|v| < |s| ==> s[|v|] == 0))
    ensures lt.BytesT? ==> (FromString(lt, s) == Some(Data(v)) <==> |s| <= lt.room && v == s)
    ensures lt.InlineT? ==>
      (FromString(lt, s) == Some(Data(v))
       <==> |v| == lt.size && (v == s || (s == [] && forall i :: 0 <= i < |v| ==> v[i] == 0)))
  {
    if lt.StringT? { UpToNul(s, v); }
    if lt.InlineT? { assert s == [] && |v| == lt.size && (forall i :: 0 <= i < |v| ==> v[i] == 0) ==> Data(v) == Zero(lt); }
  }

  lemma {:induction false} UpToNul(s: Bytes, v: Bytes)
    ensures v == BeforeNul(s) <==> v <= s && 0 !in v && (|v| < |s| ==> s[|v|] == 0)
    decreases |s|
  {
    if s != [] && s[0] != 0 {
      assert s == [s[0]] + s[1..];
      if v != [] {
        assert v == [v[0]] + v[1..];
        UpToNul(s[1..], v[1..]);
      }
    } else if v != [] && v <= s {
      assert v[0] == s[0];
    }
  }

  // The loop

  /** A zero byte where a tag is expected ends the message, whatever is behind it. */
  lemma ZeroTagEnds(fields: seq<Field>, d: Decoding, rest: Bytes)
    requires |d.slots| == |fields|
    ensures DecodeFields(fields, d, [0] + rest) == Some(d)
  {
    assert ([0] + rest)[1..] == rest;
  }

  /** Of a field that is there once the wire type is not tested: it is read as its type is. */
  lemma WireTypeIsNotTested(fields: seq<Field>, d: Decoding, i: nat, wire: nat, body: Bytes)
    requires FieldsOk(fields) && i < |fields| == |d.slots| && IsSingle(fields[i]) && wire < 8
    ensures DecodeFields(fields, d, FieldTag(wire, fields[i].tag) + body)
            == DecodeFields(fields, d, FieldTag(WireType(fields[i].ltype), fields[i].tag) + body)
  {
    hide FieldsOk, DecodeFields, FieldTag;
    var f, w := fields[i], WireType(fields[i].ltype);
    Occurs(fields, d, i, wire, body);
    Occurs(fields, d, i, w, body);
    SameField(f, wire, w, if Noted(fields, d, i).Some? then Noted(fields, d, i).value.slots[i] else [], body);
  }

  lemma SameField(f: Field, wire: nat, w: nat, slot: seq<Value>, b: Bytes)
    requires IsSingle(f)
    ensures DecodeField(f, wire, slot, b) == DecodeField(f, w, slot, b)
  {
  }

  /** Every number but zero is true. */
  lemma BoolIsRead(n: nat, rest: Bytes)
    requires n < TWO_32
    ensures DecodeNumber(BoolT, Varint(n) + rest) == Some(Parsed(if n == 0 then 0 else 1, rest))
  {
    Read32Inverts(n, rest);
  }

  // Numbers

  /** What a varint of 64 bits is to a field: the one number of its type that it stands for, or nothing if there is none. */
  lemma FromWireExactly(lt: LType, u: nat, n: int)
    requires TypeOk(lt) && u < TWO_64
    ensures lt.IntT? ==>
      (FromWire(lt, u) == Some(n) <==> InRange(lt, n) && (u - n) % (if lt.size == 8 then TWO_64 else TWO_32) == 0)
    ensures lt.UIntT? ==> (FromWire(lt, u) == Some(n) <==> InRange(lt, n) && u == n)
    ensures lt.SIntT? ==> (FromWire(lt, u) == Some(n) <==> InRange(lt, n) && (u == 2 * n || u == -2 * n - 1))
  {
    if lt.IntT? { SignedExactly(lt.size, u, n); }
  }

  lemma SignedExactly(size: nat, u: nat, n: int)
    requires SizeOk(size) && u < TWO_64
    ensures FromWire(IntT(size), u) == Some(n) <==>
            InRange(IntT(size), n) && (u - n) % (if size == 8 then TWO_64 else TWO_32) == 0
  {
    if size == 8 {
      OneOfWord(u, ToI64(u), n);
    } else {
      LowHalfIs(u);
      if InRange(IntT(size), n) && (u - n) % TWO_32 == 0 { OneOfHalf(u, ToI32(u), n); }
    }
  }

  lemma LowHalfIs(u: nat)
    ensures -Half(4) <= ToI32(u) < Half(4) && (u - ToI32(u)) % TWO_32 == 0
  {
    var q, low := u / TWO_32, u % TWO_32;
    assert u == TWO_32 * q + low;
    assert u - ToI32(u) == TWO_32 * q || u - ToI32(u) == TWO_32 * (q + 1);
  }

  lemma OneOfHalf(u: nat, v: int, n: int)
    requires -Half(4) <= v < Half(4) && (u - v) % TWO_32 == 0 && -Half(4) <= n < Half(4) && (u - n) % TWO_32 == 0
    ensures v == n
  {
    var a, b := (u - v) / TWO_32, (u - n) / TWO_32;
    assert u - v == TWO_32 * a && u - n == TWO_32 * b;
  }

  lemma OneOfWord(u: nat, v: int, n: int)
    requires u < TWO_64 && v == ToI64(u)
    ensures -Half(8) <= v < Half(8) && (-Half(8) <= n < Half(8) ==> (v == n <==> (u - n) % TWO_64 == 0))
  {
    if -Half(8) <= n < Half(8) && (u - n) % TWO_64 == 0 {
      var b := (u - n) / TWO_64;
      assert u - n == TWO_64 * b;
    }
  }

  /** The seven bits of each byte up to the first without its high bit, the lowest first, however many there are. */
  function Groups(b: Bytes): Option<Parsed<nat>> {
    if b == [] then None
    else if b[0] < 128 then Some(Parsed(b[0], b[1..]))
    else
      var more := Groups(b[1..]);
      if more.None? then None else Some(Parsed(b[0] - 128 + 128 * more.value.value, more.value.rest))
  }

  lemma SevenMore(n: nat)
    ensures Power(2, n + 7) == 128 * Power(2, n)
  {
    assert Power(2, n + 2) == 2 * Power(2, n + 1) && Power(2, n + 1) == 2 * Power(2, n);
    assert Power(2, n + 4) == 2 * Power(2, n + 3) && Power(2, n + 3) == 2 * Power(2, n + 2);
    assert Power(2, n + 6) == 2 * Power(2, n + 5) && Power(2, n + 5) == 2 * Power(2, n + 4);
  }

  lemma {:induction false} HighBits(n: nat)
    ensures n >= 32 ==> Power(2, n) % TWO_32 == 0
    ensures Power(2, n + 7) == 128 * Power(2, n)
  {
    SevenMore(n);
    if n == 32 {
      Shifted();
      assert Power(2, 28) == 0x1000_0000;
      assert Power(2, 30) == 4 * Power(2, 28) && Power(2, 32) == 4 * Power(2, 30);
    } else if n > 32 {
      HighBits(n - 1);
      assert Power(2, n) == TWO_32 * (2 * (Power(2, n - 1) / TWO_32));
    }
  }

  lemma ReadOne32(b: Bytes, shift: nat, result: nat)
    requires result < TWO_32 && ReadMore32(b, shift, result).Some?
    ensures b != []
    ensures var next := if shift >= 32 then result else (result + Power(2, shift) * (b[0] % 128)) % TWO_32;
            ReadMore32(b, shift, result)
            == if b[0] >= 128 then ReadMore32(b[1..], shift + 7, next) else Some(Parsed(next, b[1..]))
  {
    hide Power;
  }

  lemma {:induction false} MoreIsCongruent(b: Bytes, shift: nat, result: nat)
    requires result < TWO_32 && ReadMore32(b, shift, result).Some?
    ensures var r := ReadMore32(b, shift, result).value;
            && Groups(b).Some? && Groups(b).value.rest == r.rest
            && r.value == (result + Power(2, shift) * Groups(b).value.value) % TWO_32
    decreases |b|
  {
    hide Power, ReadMore32;
    ReadOne32(b, shift, result);
    var bits, p := b[0] % 128, Power(2, shift);
    var next := if shift >= 32 then result else (result + p * bits) % TWO_32;
    HighBits(shift);
    if shift >= 32 {
      HighVanish(result, p, bits);
    }
    assert next == (result + p * bits) % TWO_32;
    if b[0] >= 128 {
      MoreIsCongruent(b[1..], shift + 7, next);
      OneGroupMore(result, p, bits, Groups(b[1..]).value.value, next);
    } else {
      assert bits == b[0];
    }
  }

  lemma OneGroupMore(result: nat, p: nat, bits: nat, w: nat, next: nat)
    requires next == (result + p * bits) % TWO_32
    ensures (next + 128 * p * w) % TWO_32 == (result + p * (bits + 128 * w)) % TWO_32
  {
    assert p * (bits + 128 * w) == p * bits + 128 * p * w;
    var x, y := result + p * bits, 128 * p * w;
    Added(x, y);
  }

  lemma HighVanish(result: nat, p: nat, bits: nat)
    requires p % TWO_32 == 0 && result < TWO_32
    ensures (result + p * bits) % TWO_32 == result
  {
    var q := p / TWO_32;
    assert p * bits == TWO_32 * (q * bits);
    Added(result, TWO_32 * (q * bits));
  }

  lemma Added(a: nat, b: nat)
    ensures (a % TWO_32 + b) % TWO_32 == (a + b) % TWO_32
    ensures b % TWO_32 == 0 ==> (a + b) % TWO_32 == a % TWO_32
  {
  }

  /** A byte behind the 35th bit adds nothing, or repeats the sign of the value. */
  predicate HighByteOk(byte: Byte, i: nat, value: nat) {
    byte % 128 == 0 || (value >= 0x8000_0000 && byte == if i < 9 then 255 else 1)
  }

  /** How many bytes the groups take up. */
  function Length(b: Bytes): int { if Groups(b).None? then 0 else |b| - |Groups(b).value.rest| }

  lemma {:induction false} GroupsConsume(b: Bytes)
    ensures Groups(b).Some? ==> |Groups(b).value.rest| < |b|
  {
    if b != [] { GroupsConsume(b[1..]); }
  }

  /** From byte `k` on the bytes fit 32 bits. */
  ghost predicate HighFits(b: Bytes, k: nat, value: nat) {
    && Groups(b).Some? && 0 < Length(b) <= |b| && (Length(b) + k == 5 ==> b[Length(b) - 1] < 16)
    && forall i :: 0 <= i < Length(b) && i + k >= 5 ==> HighByteOk(b[i], i + k, value)
  }

  lemma MoreFits(b: Bytes, k: nat, value: nat)
    requires b != []
    ensures HighFits(b, k, value) <==>
      && (k >= 5 ==> HighByteOk(b[0], k, value))
      && (if b[0] >= 128 then HighFits(b[1..], k + 1, value) else k == 4 ==> b[0] < 16)
  {
    hide HighByteOk;
    if b[0] >= 128 {
      var rest := b[1..];
      if HighFits(rest, k + 1, value) && (k >= 5 ==> HighByteOk(b[0], k, value)) {
        forall i | 0 <= i < Length(b) && i + k >= 5
          ensures HighByteOk(b[i], i + k, value)
        {
          if i > 0 { assert HighByteOk(rest[i - 1], i - 1 + (k + 1), value); }
        }
      }
      if HighFits(b, k, value) {
        GroupsConsume(rest);
        assert k >= 5 ==> HighByteOk(b[0], 0 + k, value);
        forall i | 0 <= i < Length(rest) && i + (k + 1) >= 5
          ensures HighByteOk(rest[i], i + (k + 1), value)
        {
          assert HighByteOk(b[i + 1], i + 1 + k, value);
        }
      }
    }
  }

  lemma {:induction false} MoreExactly(b: Bytes, k: nat, result: nat)
    requires result < TWO_32 && k > 0
    ensures ReadMore32(b, 7 * k, result).Some?
            <==> Groups(b).Some? && HighFits(b, k, (result + Power(2, 7 * k) * Groups(b).value.value) % TWO_32)
    decreases |b|
  {
    hide Power, HighFits;
    if b != [] && Groups(b).Some? {
      var bits, p, w := b[0] % 128, Power(2, 7 * k), Groups(b).value.value;
      var value := (result + p * w) % TWO_32;
      HighBits(7 * k);
      MoreFits(b, k, value);
      if 7 * k >= 32 {
        HighVanish(result, p, bits);
        HighVanish(result, p, w);
      }
      var next := if 7 * k >= 32 then result else (result + p * bits) % TWO_32;
      if b[0] >= 128 {
        assert w == bits + 128 * Groups(b[1..]).value.value;
        OneGroupMore(result, p, bits, Groups(b[1..]).value.value, next);
        MoreExactly(b[1..], k + 1, next);
      }
    } else if b != [] && b[0] >= 128 {
      MoreExactly(b[1..], k + 1, if 7 * k >= 32 then result else (result + Power(2, 7 * k) * (b[0] % 128)) % TWO_32);
    }
  }

  /**
   * A varint is taken for 32 bits exactly if what is behind them is zero or repeats the sign, up to the tenth byte; of a
   * fifth byte that is the last one only the low bits may be set.
   */
  lemma Read32Exactly(b: Bytes)
    ensures ReadVarint32(b).Some? <==> Groups(b).Some? && HighFits(b, 0, Groups(b).value.value % TWO_32)
  {
    if b != [] {
      if Groups(b).Some? { MoreFits(b, 0, Groups(b).value.value % TWO_32); }
      if b[0] >= 128 {
        Shifted();
        MoreExactly(b[1..], 1, b[0] - 128);
      }
    }
  }

  /** A varint read as 32 bits is the value of all its groups but for multiples of 2^32. */
  lemma Read32IsCongruent(b: Bytes)
    requires ReadVarint32(b).Some?
    ensures var r := ReadVarint32(b).value;
            Groups(b).Some? && Groups(b).value.rest == r.rest && r.value == Groups(b).value.value % TWO_32
  {
    if b[0] >= 128 {
      Shifted();
      MoreIsCongruent(b[1..], 7, b[0] - 128);
    }
  }
}
