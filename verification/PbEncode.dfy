/** The nanopb encoder (pb_encode.c): streams that write and streams that only count. */
module PbEncode {
  import opened Wrappers
  import opened InternalKeys
  import opened Coding
  import opened PbMessages

  /** A stream without a callback only counts. */
  datatype State = State(sizing: bool, maxSize: nat, written: nat, data: Bytes)

  ghost predicate Fits(s: State, n: nat) { s.sizing || s.written + n <= s.maxSize }

  ghost function Extended(s: State, b: Bytes): State {
    State(s.sizing, s.maxSize, s.written + |b|, if s.sizing then s.data else s.data + b)
  }

  /** Something is written: all of it if there is such an encoding and there is room for it, and else the code fails. */
  ghost predicate Outcome(s: State, t: State, b: Option<Bytes>, ok: bool) {
    && t.sizing == s.sizing && t.maxSize == s.maxSize && (t.sizing || t.written <= t.maxSize)
    && (ok <==> b.Some? && Fits(s, |b.value|))
    && (ok ==> t == Extended(s, b.value))
  }

  /** One thing after another. */
  lemma {:induction false} OutcomesJoin(s: State, t: State, u: State, a: Option<Bytes>, b: Option<Bytes>, ok: bool)
    requires Outcome(s, t, a, true) && Outcome(t, u, b, ok)
    ensures Outcome(s, u, Then(a, b), ok)
  {
    if ok && !s.sizing { assert s.data + a.value + b.value == s.data + (a.value + b.value); }
  }

  lemma {:induction false} FailureStays(s: State, t: State, a: Option<Bytes>, b: Option<Bytes>)
    requires Outcome(s, t, a, false)
    ensures Outcome(s, t, Then(a, b), false)
  {
  }

  lemma {:induction false} NothingWritten(s: State)
    requires s.sizing || s.written <= s.maxSize
    ensures Outcome(s, s, Some([]), true)
  {
    assert s.data + [] == s.data;
  }

  /** What the loop of pb_encode_varint has of a number; the last byte has a bit too many. */
  ghost predicate VarintSoFar(buffer: Bytes, left: nat, value: nat) {
    if left > 0 then buffer + Varint(left) == Varint(value)
    else
      buffer != [] && buffer[|buffer| - 1] >= 128
      && buffer[..|buffer| - 1] + [buffer[|buffer| - 1] - 128] == Varint(value)
  }

  lemma {:induction false} OneByteMore(buffer: Bytes, left: nat, value: nat)
    requires left > 0 && VarintSoFar(buffer, left, value)
    ensures VarintSoFar(buffer + [left % 128 + 128], left / 128, value)
  {
    var b2: Bytes := buffer + [left % 128 + 128];
    if left >= 128 {
      assert buffer + Varint(left) == buffer + ([128 + left % 128] + Varint(left / 128));
      assert buffer + ([128 + left % 128] + Varint(left / 128)) == b2 + Varint(left / 128);
    } else {
      assert b2[..|b2| - 1] == buffer;
    }
  }

  class OStream {
    const sizing: bool
    const maxSize: nat
    var written: nat
    var data: Bytes

    ghost function Now(): State
      reads this
    {
      State(sizing, maxSize, written, data)
    }

    ghost predicate Valid()
      reads this
    {
      sizing || written <= maxSize
    }

    /** PB_OSTREAM_SIZING. */
    constructor Sizing()
      ensures Valid() && Now() == State(true, 0, 0, [])
    {
      sizing, maxSize, written, data := true, 0, 0, [];
    }

    /** pb_ostream_from_buffer, and the substreams, which go on behind the data of another. */
    constructor OnBuffer(maxSize: nat, data: Bytes)
      ensures Valid() && Now() == State(false, maxSize, 0, data)
    {
      this.sizing, this.maxSize, this.written, this.data := false, maxSize, 0, data;
    }

    /** pb_write. */
    method Write(buf: Bytes) returns (ok: bool)
      requires Valid()
      modifies this
      ensures Outcome(old(Now()), Now(), Some(buf), ok)
    {
      if |buf| > 0 && !sizing {
        if written + |buf| > maxSize { return false; }
        data := data + buf;
      } else if !sizing {
        assert data + buf == data;
      }
      written := written + |buf|;
      ok := true;
    }

    /** pb_write without data. */
    method Count(n: nat, ghost buf: Bytes) returns (ok: bool)
      requires Valid() && sizing && n == |buf|
      modifies this
      ensures Outcome(old(Now()), Now(), Some(buf), ok)
    {
      written := written + n;
      ok := true;
    }

    /** pb_encode_varint. */
    method EncodeVarint(value: nat) returns (ok: bool)
      requires Valid()
      modifies this
      ensures Outcome(old(Now()), Now(), Some(Varint(value)), ok)
    {
      if value <= 0x7F {
        ok := Write([value]);
        return;
      }
      var buffer: Bytes, left: nat := [], value;
      while left > 0
        modifies {}
        invariant VarintSoFar(buffer, left, value)
      {
        OneByteMore(buffer, left, value);
        buffer, left := buffer + [left % 128 + 128], left / 128;
      }
      ok := Write(buffer[..|buffer| - 1] + [buffer[|buffer| - 1] - 128]);
    }

    /** pb_encode_tag, and pb_encode_tag_for_field with the wire type of the field's. */
    method EncodeTag(wire: nat, tag: nat) returns (ok: bool)
      requires Valid() && wire < 8
      modifies this
      ensures Outcome(old(Now()), Now(), Some(FieldTag(wire, tag)), ok)
    {
      ok := EncodeVarint(tag * 8 + wire);
    }

    /** pb_encode_string. */
    method EncodeString(s: Bytes) returns (ok: bool)
      requires Valid()
      modifies this
      ensures Outcome(old(Now()), Now(), Some(WithLength(s)), ok)
    {
      ok := EncodeVarint(|s|);
      label Length:
      if !ok {
        FailureStays(old(Now()), Now(), Some(Varint(|s|)), Some(s));
        return;
      }
      ok := Write(s);
      OutcomesJoin(old(Now()), old@Length(Now()), Now(), Some(Varint(|s|)), Some(s), ok);
    }

    /** The encoders of numbers: pb_enc_bool, pb_enc_varint, pb_enc_uvarint, pb_enc_svarint and pb_enc_fixed. */
    method EncodeNum(lt: LType, n: int) returns (ok: bool)
      requires Valid() && IsNumber(lt) && InRange(lt, n)
      modifies this
      ensures Outcome(old(Now()), Now(), EncodeNumber(lt, n), ok)
    {
      match lt
      case BoolT =>
        ok := EncodeVarint(if n == 0 then 0 else 1);
      case IntT(size) =>
        if !SizeOk(size) { return false; }
        ok := EncodeVarint(ToU64(n));
      case UIntT(size) =>
        if !SizeOk(size) { return false; }
        ok := EncodeVarint(n);
      case SIntT(size) =>
        if !SizeOk(size) { return false; }
        ok := EncodeVarint(ZigZag(n));
      case Fixed32T =>
        ok := Write(Fixed(n, 4));
      case Fixed64T =>
        ok := Write(Fixed(n, 8));
    }

    /** The field encoders: a value without its tag. */
    method EncodeValue(lt: LType, v: Value) returns (ok: bool)
      requires Valid() && ValueOk(lt, v)
      modifies this
      ensures Outcome(old(Now()), Now(), EncodeItem(lt, v), ok)
      decreases lt, 0
    {
      match lt
      case BytesT(room) =>
        if |v.bytes| > room { return false; }
        ok := EncodeString(v.bytes);
      case StringT(_) =>
        ok := EncodeString(v.bytes);
      case InlineT(_) =>
        ok := EncodeString(v.bytes);
      case MessageT(fields) =>
        ok := EncodeSubmessage(fields, v.slots);
      case _ =>
        ok := EncodeNum(lt, v.n);
    }

    /** pb_encode_submessage: the message is encoded twice, the first time to know its size. */
    method EncodeSubmessage(fields: seq<Field>, m: Message) returns (ok: bool)
      requires Valid() && MessageOk(fields, m)
      modifies this
      ensures Outcome(old(Now()), Now(), Submessage(fields, m), ok)
      decreases fields, |fields| + 1
    {
      var sizes := new OStream.Sizing();
      var sized := sizes.Encode(fields, m);
      if !sized { return false; }
      var size := sizes.written;
      ghost var b := EncodeMessage(fields, m).value;
      ok := EncodeVarint(size);
      label Length:
      if !ok {
        FailureStays(old(Now()), Now(), Some(Varint(size)), Some(b));
        return;
      }
      if sizing {
        ok := Count(size, b);
        OutcomesJoin(old(Now()), old@Length(Now()), Now(), Some(Varint(size)), Some(b), ok);
        return;
      }
      if written + size > maxSize {
        return false;
      }
      var substream := new OStream.OnBuffer(size, data);
      ok := substream.Encode(fields, m);
      written := written + substream.written;
      data := substream.data;
      assert ok;
      OutcomesJoin(old(Now()), old@Length(Now()), Now(), Some(Varint(size)), Some(b), ok);
      if substream.written != size { return false; }
    }

    method EncodeTagged(f: Field, v: Value) returns (ok: bool)
      requires Valid() && ValueOk(f.ltype, v)
      modifies this
      ensures Outcome(old(Now()), Now(), Tagged(f, v), ok)
      decreases f, 0
    {
      ok := EncodeTag(WireType(f.ltype), f.tag);
      label Tag:
      ghost var tag, item := Some(FieldTag(WireType(f.ltype), f.tag)), EncodeItem(f.ltype, v);
      if !ok {
        FailureStays(old(Now()), Now(), tag, item);
        return;
      }
      ok := EncodeValue(f.ltype, v);
      OutcomesJoin(old(Now()), old@Tag(Now()), Now(), tag, item, ok);
    }

    /** encode_array. */
    method EncodeElements(f: Field, max: nat, slot: seq<Value>) returns (ok: bool)
      requires Valid() && forall k :: 0 <= k < |slot| ==> ValueOk(f.ltype, slot[k])
      modifies this
      ensures Outcome(old(Now()), Now(), EncodeArray(f, max, slot), ok)
      decreases f, 2
    {
      if |slot| == 0 {
        NothingWritten(Now());
        return true;
      }
      if |slot| > max { return false; }
      if IsNumber(f.ltype) {
        ok := EncodePacked(f, slot);
      } else {
        ok := EncodeUnpacked(f, slot);
      }
    }

    method EncodeUnpacked(f: Field, slot: seq<Value>) returns (ok: bool)
      requires Valid() && forall k :: 0 <= k < |slot| ==> ValueOk(f.ltype, slot[k])
      modifies this
      ensures Outcome(old(Now()), Now(), PbMessages.EncodeTagged(f, slot), ok)
      decreases f, 1
    {
      assert slot[0..] == slot;
      NothingWritten(Now());
      NothingThen(PbMessages.EncodeTagged(f, slot));
      ghost var done: Option<Bytes> := Some([]);
      for i := 0 to |slot|
        invariant Outcome(old(Now()), Now(), done, true)
        invariant PbMessages.EncodeTagged(f, slot) == Then(done, PbMessages.EncodeTagged(f, slot[i..]))
      {
        ghost var before := Now();
        ghost var item, left := Tagged(f, slot[i]), PbMessages.EncodeTagged(f, slot[i + 1..]);
        assert slot[i..][0] == slot[i] && slot[i..][1..] == slot[i + 1..];
        ThenApart(done, item, left);
        ok := EncodeTagged(f, slot[i]);
        OutcomesJoin(old(Now()), before, Now(), done, item, ok);
        done := Then(done, item);
        if !ok {
          FailureStays(old(Now()), Now(), done, left);
          return;
        }
      }
      assert PbMessages.EncodeTagged(f, slot[|slot|..]) == Some([]);
      ThenNothing(done);
      ok := true;
    }

    /** The numbers of an array behind their size. */
    method EncodePacked(f: Field, slot: seq<Value>) returns (ok: bool)
      requires Valid() && IsNumber(f.ltype) && forall k :: 0 <= k < |slot| ==> ValueOk(f.ltype, slot[k])
      modifies this
      ensures Outcome(old(Now()), Now(), Packed(f, slot), ok)
    {
      ghost var tag, items := FieldTag(2, f.tag), EncodeItems(f.ltype, slot);
      ok := EncodeTag(2, f.tag);
      label Tag:
      if !ok {
        FailureStays(old(Now()), Now(), Some(tag), Sized(items));
        return;
      }
      var size;
      ok, size := PackedSize(f.ltype, slot);
      if !ok { return; }
      ok := EncodeVarint(size);
      label Length:
      if !ok {
        FailureStays(old@Tag(Now()), Now(), Some(Varint(size)), items);
        OutcomesJoin(old(Now()), old@Tag(Now()), Now(), Some(tag), Sized(items), false);
        return;
      }
      if sizing {
        ok := Count(size, items.value);
      } else {
        ok := EncodeNums(f.ltype, slot);
      }
      OutcomesJoin(old@Tag(Now()), old@Length(Now()), Now(), Some(Varint(size)), items, ok);
      OutcomesJoin(old(Now()), old@Tag(Now()), Now(), Some(tag), Sized(items), ok);
    }

    method EncodeNums(lt: LType, slot: seq<Value>) returns (ok: bool)
      requires Valid() && IsNumber(lt) && forall k :: 0 <= k < |slot| ==> ValueOk(lt, slot[k])
      modifies this
      ensures Outcome(old(Now()), Now(), EncodeItems(lt, slot), ok)
    {
      assert slot[0..] == slot;
      NothingWritten(Now());
      NothingThen(EncodeItems(lt, slot));
      ghost var done: Option<Bytes> := Some([]);
      for i := 0 to |slot|
        invariant Outcome(old(Now()), Now(), done, true)
        invariant EncodeItems(lt, slot) == Then(done, EncodeItems(lt, slot[i..]))
      {
        ghost var before := Now();
        ghost var item, left := EncodeItem(lt, slot[i]), EncodeItems(lt, slot[i + 1..]);
        assert slot[i..][0] == slot[i] && slot[i..][1..] == slot[i + 1..];
        ThenApart(done, item, left);
        assert ValueOk(lt, slot[i]);
        ok := EncodeNum(lt, slot[i].n);
        OutcomesJoin(old(Now()), before, Now(), done, item, ok);
        done := Then(done, item);
        if !ok {
          FailureStays(old(Now()), Now(), done, left);
          return;
        }
      }
      assert EncodeItems(lt, slot[|slot|..]) == Some([]);
      ThenNothing(done);
      ok := true;
    }

    /** encode_basic_field, for a field in the struct itself. */
    method EncodeField(f: Field, slot: seq<Value>) returns (ok: bool)
      requires Valid() && SlotOk(f, slot)
      modifies this
      ensures Outcome(old(Now()), Now(), PbMessages.EncodeField(f, slot), ok)
      decreases f, 3
    {
      NothingWritten(Now());
      match f.rule
      case Required =>
        ok := EncodeTagged(f, slot[0]);
      case Singular =>
        if IsZero(f.ltype, slot[0]) { return true; }
        ok := EncodeTagged(f, slot[0]);
      case Repeated(max) =>
        ok := EncodeElements(f, max, slot);
      case FixedCount(max) =>
        ok := EncodeElements(f, max, slot);
      case _ =>
        if slot == [] { return true; }
        ok := EncodeTagged(f, slot[0]);
    }

    /** pb_encode. */
    method Encode(fields: seq<Field>, m: Message) returns (ok: bool)
      requires Valid() && MessageOk(fields, m)
      modifies this
      ensures Outcome(old(Now()), Now(), EncodeMessage(fields, m), ok)
      decreases fields, |fields|
    {
      assert fields[0..] == fields && m[0..] == m;
      NothingWritten(Now());
      NothingThen(EncodeMessage(fields, m));
      ghost var done: Option<Bytes> := Some([]);
      for i := 0 to |fields|
        invariant Outcome(old(Now()), Now(), done, true)
        invariant EncodeMessage(fields, m) == Then(done, EncodeMessage(fields[i..], m[i..]))
      {
        ghost var before := Now();
        ghost var item, left := PbMessages.EncodeField(fields[i], m[i]), EncodeMessage(fields[i + 1..], m[i + 1..]);
        assert fields[i..][0] == fields[i] && fields[i..][1..] == fields[i + 1..];
        assert m[i..][0] == m[i] && m[i..][1..] == m[i + 1..];
        ThenApart(done, item, left);
        ok := EncodeField(fields[i], m[i]);
        OutcomesJoin(old(Now()), before, Now(), done, item, ok);
        done := Then(done, item);
        if !ok {
          FailureStays(old(Now()), Now(), done, left);
          return;
        }
      }
      assert EncodeMessage(fields[|fields|..], m[|fields|..]) == Some([]);
      ThenNothing(done);
      ok := true;
    }
  }

  ghost function Sized(b: Option<Bytes>): Option<Bytes> {
    if b.None? then None else Some(WithLength(b.value))
  }

  ghost function Submessage(fields: seq<Field>, m: Message): Option<Bytes> { Sized(EncodeMessage(fields, m)) }

  ghost function Packed(f: Field, slot: seq<Value>): Option<Bytes> {
    Then(Some(FieldTag(2, f.tag)), Sized(EncodeItems(f.ltype, slot)))
  }

  lemma {:induction false} ThenApart(a: Option<Bytes>, b: Option<Bytes>, c: Option<Bytes>)
    ensures Then(a, Then(b, c)) == Then(Then(a, b), c)
  {
    if a.Some? && b.Some? && c.Some? { assert a.value + (b.value + c.value) == a.value + b.value + c.value; }
  }

  lemma {:induction false} NothingThen(a: Option<Bytes>)
    ensures Then(Some([]), a) == a
  {
    if a.Some? { assert [] + a.value == a.value; }
  }

  lemma {:induction false} ThenNothing(a: Option<Bytes>)
    ensures Then(a, Some([])) == a
  {
    if a.Some? { assert a.value + [] == a.value; }
  }

  /** The size of packed numbers: that of fixed ones is known, the others are encoded to be counted. */
  method PackedSize(lt: LType, slot: seq<Value>) returns (ok: bool, size: nat)
    requires IsNumber(lt) && forall k :: 0 <= k < |slot| ==> ValueOk(lt, slot[k])
    ensures ok <==> EncodeItems(lt, slot).Some?
    ensures ok ==> size == |EncodeItems(lt, slot).value|
  {
    if lt.Fixed32T? {
      FixedSize(lt, 4, slot);
      return true, 4 * |slot|;
    }
    if lt.Fixed64T? {
      FixedSize(lt, 8, slot);
      return true, 8 * |slot|;
    }
    var sizes := new OStream.Sizing();
    ok := sizes.EncodeNums(lt, slot);
    size := sizes.written;
  }

  lemma {:induction false} FixedSize(lt: LType, n: nat, slot: seq<Value>)
    requires (lt.Fixed32T? && n == 4) || (lt.Fixed64T? && n == 8)
    requires forall k :: 0 <= k < |slot| ==> ValueOk(lt, slot[k])
    ensures EncodeItems(lt, slot).Some? && |EncodeItems(lt, slot).value| == n * |slot|
  {
    if slot != [] {
      assert ValueOk(lt, slot[0]);
      FixedSize(lt, n, slot[1..]);
    }
  }

  /** pb_get_encoded_size. */
  method GetEncodedSize(fields: seq<Field>, m: Message) returns (ok: bool, size: nat)
    requires MessageOk(fields, m)
    ensures ok <==> EncodeMessage(fields, m).Some?
    ensures ok ==> size == |EncodeMessage(fields, m).value|
  {
    var stream := new OStream.Sizing();
    ok := stream.Encode(fields, m);
    size := stream.written;
  }

  /**
   * pb_encode into a buffer: it succeeds exactly when the sizing pass does and its count fits, and then writes exactly
   * that many bytes.
   */
  method EncodeToBuffer(fields: seq<Field>, m: Message, bufSize: nat) returns (ok: bool, written: nat, data: Bytes)
    requires MessageOk(fields, m)
    ensures ok <==> EncodeMessage(fields, m).Some? && |EncodeMessage(fields, m).value| <= bufSize
    ensures ok ==> Some(data) == EncodeMessage(fields, m) && written == |data|
  {
    var stream := new OStream.OnBuffer(bufSize, []);
    ok := stream.Encode(fields, m);
    written, data := stream.written, stream.data;
    if ok { assert [] + EncodeMessage(fields, m).value == EncodeMessage(fields, m).value; }
  }
}
