/** The nanopb decoder (pb_decode.c): limited streams over a buffer, and the loop that fills a message struct. */
module PbDecode {
  import opened Wrappers
  import opened InternalKeys
  import opened Coding
  import opened PbFieldIter
  import opened PbMessages

  /** Something is read if it can be, and else the code fails. */
  ghost predicate Took<T>(r: Option<Parsed<T>>, ok: bool, value: T, rest: Bytes) {
    (ok <==> r.Some?) && (ok ==> r == Some(Parsed(value, rest)))
  }

  ghost predicate Went(r: Option<Bytes>, ok: bool, rest: Bytes) {
    (ok <==> r.Some?) && (ok ==> r == Some(rest))
  }

  lemma {:induction false} SoFarStarts(b: Bytes)
    ensures ReadSoFar(b, 10, 0, 0, 1)
  {
    assert b[0..] == b;
  }

  lemma {:induction false} NothingMore(b: Bytes, n: nat, value: nat, scale: nat)
    requires n <= 10 && n <= |b| && (n == 10 || n == |b|) && ReadSoFar(b, 10, n, value, scale)
    ensures Read64(b) == None
  {
  }

  function Plus(value: nat, scale: nat, bits: nat): nat { value + scale * bits }

  lemma {:induction false} Next64(b: Bytes, n: nat, value: nat, scale: nat)
    requires n < 10 && n < |b| && ReadSoFar(b, 10, n, value, scale)
    ensures b[n] >= 128 ==> ReadSoFar(b, 10, n + 1, Plus(value, scale, b[n] - 128), scale * 128)
    ensures b[n] < 128 ==> Read64(b) == Some(Parsed(Plus(value, scale, b[n]) % TWO_64, b[n + 1..]))
  {
    hide ReadSoFar;
    ReadOn(b, 10, n, value, scale);
  }

  /** The loop of pb_decode_noinit, once around. */
  lemma {:induction false} DecodeStep(fields: seq<Field>, d: Decoding, b: Bytes)
    requires |d.slots| == |fields| && b != []
    ensures
      var t, all := ReadVarint32(b), DecodeFields(fields, d, b);
      if t.None? then all == None
      else if t.value.value == 0 then all == Some(d)
      else
        var i := FindField(fields, t.value.value / 8);
        if i.None? then
          var rest := SkipUnknown(fields, t.value.value / 8, t.value.value % 8, t.value.rest);
          all == if rest.None? then None else DecodeFields(fields, d, rest.value)
        else
          var p := Occurrence(fields, d, i.value, t.value.value % 8, t.value.rest);
          all == if p.None? then None else DecodeFields(fields, p.value.value, p.value.rest)
  {
  }

  class IStream {
    const buf: Bytes
    const limit: nat
    var pos: nat
    var bytesLeft: nat

    ghost predicate Valid()
      reads this
    {
      pos + bytesLeft <= limit <= |buf|
    }

    ghost function Rest(): Bytes
      requires Valid()
      reads this
    {
      buf[pos..pos + bytesLeft]
    }

    /** Reading does not move the end. */
    ghost function End(): nat
      reads this
    {
      pos + bytesLeft
    }

    /** pb_istream_from_buffer, and the substreams. */
    constructor (buf: Bytes, pos: nat, bytesLeft: nat)
      requires pos + bytesLeft <= |buf|
      ensures Valid() && this.buf == buf && this.pos == pos && this.bytesLeft == bytesLeft && limit == End()
    {
      this.buf, this.pos, this.bytesLeft, limit := buf, pos, bytesLeft, pos + bytesLeft;
    }

    /** pb_readbyte. */
    method ReadByte() returns (ok: bool, byte: Byte)
      requires Valid()
      modifies this
      ensures Valid()
      ensures ok <==> old(Rest()) != []
      ensures ok ==> byte == old(Rest())[0] && Rest() == old(Rest())[1..] && bytesLeft == old(bytesLeft) - 1
      ensures ok ==> End() == old(End())
    {
      if bytesLeft == 0 { return false, 0; }
      ok, byte := true, buf[pos];
      pos, bytesLeft := pos + 1, bytesLeft - 1;
    }

    /** pb_read. */
    method Read(count: nat) returns (ok: bool, bytes: Bytes)
      requires Valid()
      modifies this
      ensures Valid() && Took(ReadBytes(old(Rest()), count), ok, bytes, Rest())
      ensures ok ==> bytesLeft == old(bytesLeft) - count && End() == old(End())
    {
      if bytesLeft < count { return false, []; }
      ok, bytes := true, buf[pos..pos + count];
      assert bytes == Rest()[..count];
      pos, bytesLeft := pos + count, bytesLeft - count;
    }

    /** pb_decode_varint32. */
    method DecodeVarint32() returns (ok: bool, value: nat)
      requires Valid()
      modifies this
      ensures Valid() && Took(ReadVarint32(old(Rest())), ok, value, Rest())
      ensures ok ==> bytesLeft < old(bytesLeft) && End() == old(End())
    {
      var byte;
      value := 0;
      ok, byte := ReadByte();
      if !ok { return; }
      if byte < 0x80 {
        value := byte;
        return;
      }
      var bitpos := 7;
      value := byte - 0x80;
      while true
        invariant Valid() && bytesLeft < old(bytesLeft) && End() == old(End()) && value < TWO_32
        invariant ReadVarint32(old(Rest())) == ReadMore32(Rest(), bitpos, value)
        decreases bytesLeft
      {
        ok, byte := ReadByte();
        if !ok { return; }
        if bitpos >= 32 {
          var signExtension := if bitpos < 63 then 0xFF else 0x01;
          if byte % 128 != 0 && (value < 0x8000_0000 || byte != signExtension) { return false, 0; }
        } else {
          value := (value + Power(2, bitpos) * (byte % 128)) % TWO_32;
        }
        bitpos := bitpos + 7;
        if byte < 0x80 { break; }
      }
      if bitpos == 35 && byte / 16 % 8 != 0 { return false, 0; }
    }

    /** pb_decode_varint: at most ten bytes, cut to 64 bits. */
    method DecodeVarint() returns (ok: bool, value: nat)
      requires Valid()
      modifies this
      ensures Valid() && Took(Read64(old(Rest())), ok, value, Rest())
      ensures ok ==> bytesLeft < old(bytesLeft) && End() == old(End())
    {
      ghost var b := Rest();
      var n, scale: nat := 0, 1;
      value := 0;
      hide Coding.DecodeVarint, Read64;
      assert ReadSoFar(b, 10, 0, 0, 1) by { SoFarStarts(b); }
      hide ReadSoFar, Plus;
      while true
        invariant Valid() && n <= 10 && n <= |b| && bytesLeft == old(bytesLeft) - n && End() == old(End())
        invariant Rest() == b[n..]
        invariant ReadSoFar(b, 10, n, value, scale)
        decreases 10 - n
      {
        if n == 10 {
          NothingMore(b, n, value, scale);
          return false, 0;
        }
        var byte;
        ok, byte := ReadByte();
        if !ok {
          NothingMore(b, n, value, scale);
          return;
        }
        Next64(b, n, value, scale);
        assert b[n + 1..] == b[n..][1..];
        if byte < 0x80 {
          value := Plus(value, scale, byte) % TWO_64;
          return;
        }
        n := n + 1;
        value, scale := Plus(value, scale, byte - 0x80), scale * 128;
      }
    }

    /** pb_skip_varint. */
    method SkipVarintBytes() returns (ok: bool)
      requires Valid()
      modifies this
      ensures Valid() && Went(SkipVarint(old(Rest())), ok, Rest())
      ensures ok ==> bytesLeft < old(bytesLeft) && End() == old(End())
    {
      while true
        invariant Valid() && bytesLeft <= old(bytesLeft) && End() == old(End())
        invariant SkipVarint(old(Rest())) == SkipVarint(Rest())
        decreases bytesLeft
      {
        var byte;
        ok, byte := ReadByte();
        if !ok { return; }
        if byte < 0x80 { return; }
      }
    }

    /** pb_skip_field. */
    method SkipField(wire: nat) returns (ok: bool)
      requires Valid()
      modifies this
      ensures Valid() && Went(Skip(wire, old(Rest())), ok, Rest())
      ensures ok ==> bytesLeft <= old(bytesLeft) && End() == old(End())
    {
      var skipped;
      if wire == 0 {
        ok := SkipVarintBytes();
      } else if wire == 1 {
        ok, skipped := Read(8);
      } else if wire == 2 {
        var length;
        ok, length := DecodeVarint32();
        if !ok { return; }
        ok, skipped := Read(length);
      } else if wire == 5 {
        ok, skipped := Read(4);
      } else {
        ok := false;
      }
    }

    /** pb_make_string_substream: the substream has what is behind the length, and this stream no longer has it. */
    method MakeSubstream() returns (ok: bool, sub: IStream?)
      requires Valid()
      modifies this
      ensures Valid() && ok == ReadString(old(Rest())).Some? && ok == (sub != null)
      ensures ok ==>
                var r := ReadString(old(Rest())).value;
                && fresh(sub) && sub.Valid() && sub.buf == buf && sub.Rest() == r.value && sub.bytesLeft == |r.value|
                && sub.limit == sub.End()
                && bytesLeft == |r.rest| && sub.End() + bytesLeft == old(End())
                && buf[sub.End()..sub.End() + bytesLeft] == r.rest
                && sub.bytesLeft + bytesLeft < old(bytesLeft)
    {
      var size;
      ok, size := DecodeVarint32();
      if !ok { return false, null; }
      if bytesLeft < size { return false, null; }
      sub := new IStream(buf, pos, size);
      ghost var rest := Rest();
      assert rest[..size] == buf[pos..pos + size];
      assert rest[size..] == buf[pos + size..pos + bytesLeft];
      bytesLeft := bytesLeft - size;
    }

    /** pb_close_string_substream: goes on behind the substream, whatever is left of that. */
    method CloseSubstream(sub: IStream)
      requires sub != this && sub.Valid() && sub.buf == buf && sub.limit + bytesLeft <= limit <= |buf|
      modifies this, sub
      ensures Valid() && bytesLeft == old(bytesLeft) && Rest() == buf[old(sub.End())..old(sub.End()) + bytesLeft]
      ensures End() == old(sub.End()) + bytesLeft
    {
      if sub.bytesLeft > 0 {
        assert |sub.Rest()| == sub.bytesLeft;
        var ok, skipped := sub.Read(sub.bytesLeft);
        assert ok;
      }
      pos := sub.pos;
    }

    /** The decoders of numbers: pb_dec_bool, pb_dec_varint, pb_dec_uvarint, pb_dec_svarint and pb_dec_fixed. */
    method DecodeNum(lt: LType) returns (ok: bool, n: int)
      requires Valid()
      modifies this
      ensures Valid() && Took(DecodeNumber(lt, old(Rest())), ok, n, Rest())
      ensures ok ==> bytesLeft < old(bytesLeft) && End() == old(End())
    {
      n := 0;
      if lt.BoolT? {
        var value;
        ok, value := DecodeVarint32();
        n := if value == 0 then 0 else 1;
      } else if lt.Fixed32T? || lt.Fixed64T? {
        var bytes;
        ok, bytes := Read(if lt.Fixed32T? then 4 else 8);
        if ok { n := DecodeFixed(bytes); }
      } else {
        var u;
        ok, u := DecodeVarint();
        if !ok { return; }
        var fitted := FromWire(lt, u);
        if fitted.None? { return false, 0; }
        n := fitted.value;
      }
    }

    /** The field decoders: a value over the one that was there. */
    method DecodeValue(lt: LType, was: Value) returns (ok: bool, v: Value)
      requires Valid() && TypeOk(lt)
      modifies this
      ensures Valid() && Took(DecodeItem(lt, was, old(Rest())), ok, v, Rest())
      ensures ok ==> bytesLeft < old(bytesLeft) && End() == old(End())
      decreases bytesLeft, 0
    {
      v := Num(0);
      if IsNumber(lt) {
        var n;
        ok, n := DecodeNum(lt);
        v := Num(n);
        return;
      }
      if lt.MessageT? {
        var sub;
        ok, sub := MakeSubstream();
        if !ok { return; }
        var m;
        ok, m := sub.DecodeNoinit(lt.fields, if was.Msg? then was.slots else []);
        CloseSubstream(sub);
        v := Msg(m);
        return;
      }
      ok, v := DecodeData(lt, was);
    }

    /** pb_dec_bytes and pb_dec_string: bytes behind their length that have to fit their array. */
    method DecodeData(lt: LType, ghost was: Value) returns (ok: bool, v: Value)
      requires Valid() && TypeOk(lt) && !IsNumber(lt) && !lt.MessageT?
      modifies this
      ensures Valid() && Took(DecodeItem(lt, was, old(Rest())), ok, v, Rest())
      ensures ok ==> bytesLeft < old(bytesLeft) && End() == old(End())
    {
      v := Num(0);
      var length, bytes;
      ok, length := DecodeVarint32();
      if !ok { return; }
      ok, bytes := Read(length);
      if !ok { return; }
      var fitted := FromString(lt, bytes);
      if fitted.None? { return false, v; }
      v := fitted.value;
    }

    /** decode_static_field: one occurrence of a field. */
    method DecodeStaticField(f: Field, wire: nat, was: seq<Value>) returns (ok: bool, slot: seq<Value>)
      requires Valid() && FieldOk(f)
      modifies this
      ensures Valid() && Took(DecodeField(f, wire, was, old(Rest())), ok, slot, Rest())
      ensures ok ==> bytesLeft < old(bytesLeft) && End() == old(End())
      decreases bytesLeft, 2
    {
      var v;
      match f.rule
      case Repeated(max) =>
        ok, slot := DecodeRepeated(f.ltype, max, wire, was);
      case FixedCount(max) =>
        ok, slot := DecodeRepeated(f.ltype, max, wire, was);
      case OneOf(_) =>
        ok, v := DecodeValue(f.ltype, Zero(f.ltype));
        slot := [v];
      case _ =>
        ok, v := DecodeValue(f.ltype, if was == [] then Zero(f.ltype) else was[0]);
        slot := [v];
    }

    method DecodeRepeated(lt: LType, max: nat, wire: nat, was: seq<Value>) returns (ok: bool, slot: seq<Value>)
      requires Valid() && TypeOk(lt)
      modifies this
      ensures Valid() && Took(DecodeElement(lt, max, wire, was, old(Rest())), ok, slot, Rest())
      ensures ok ==> bytesLeft < old(bytesLeft) && End() == old(End())
      decreases bytesLeft, 1
    {
      slot := was;
      if wire == 2 && IsNumber(lt) {
        var sub;
        ok, sub := MakeSubstream();
        if !ok { return; }
        ok, slot := sub.FillArray(lt, max, was);
        if !ok { return; }
        CloseSubstream(sub);
        return;
      }
      if |was| >= max { return false, was; }
      var v;
      ok, v := DecodeValue(lt, Zero(lt));
      slot := was + [v];
    }

    /** The loop over a packed array. */
    method FillArray(lt: LType, max: nat, was: seq<Value>) returns (ok: bool, slot: seq<Value>)
      requires Valid() && IsNumber(lt)
      modifies this
      ensures Valid() && ok == DecodePacked(lt, max, was, old(Rest())).Some?
      ensures ok ==> Some(slot) == DecodePacked(lt, max, was, old(Rest())) && bytesLeft == 0 && End() == old(End())
    {
      slot, ok := was, true;
      while bytesLeft > 0 && |slot| < max
        invariant Valid() && End() == old(End())
        invariant DecodePacked(lt, max, was, old(Rest())) == DecodePacked(lt, max, slot, Rest())
        decreases bytesLeft
      {
        var n;
        ok, n := DecodeNum(lt);
        if !ok { return; }
        slot := slot + [Num(n)];
      }
      ok := bytesLeft == 0;
    }

    /** The body of the loop below, once the field is found. */
    method DecodeOccurrence(iter: FieldIter, was: Message, seen0: set<nat>, filling0: Option<nat>, wire: nat)
      returns (ok: bool, slots: Message, seen: set<nat>, filling: Option<nat>)
      requires Valid() && iter.Valid() && FieldsOk(iter.fields) && iter.pos < |iter.fields| == |was|
      modifies this
      ensures Valid()
      ensures Took(Occurrence(iter.fields, Decoding(was, seen0, filling0), iter.pos, wire, old(Rest())), ok,
                   Decoding(slots, seen, filling), Rest())
      ensures ok ==> bytesLeft < old(bytesLeft) && End() == old(End())
      decreases bytesLeft, 3
    {
      var fields, i := iter.fields, iter.pos;
      slots, seen, filling := was, seen0, filling0;
      if fields[i].rule.FixedCount? && filling != Some(i) {
        if !Filled(fields, Decoding(was, seen0, filling0)) { return false, slots, seen, filling; }
        filling := Some(i);
        slots := slots[i := []];
      }
      if fields[i].rule.Required? && iter.requiredFieldIndex < MAX_REQUIRED_FIELDS {
        seen := seen + {iter.requiredFieldIndex};
      }
      assert Noted(fields, Decoding(was, seen0, filling0), i) == Some(Decoding(slots, seen, filling));
      assert FieldOk(fields[i]);
      var slot;
      ok, slot := DecodeStaticField(fields[i], wire, slots[i]);
      if !ok { return; }
      slots := Stored(fields, slots, i, slot);
    }

    /** pb_decode_noinit: `slots`, `seen` and `filling` are the struct, fields_seen and fixed_count_field. */
    method DecodeNoinit(fields: seq<Field>, was: Message) returns (ok: bool, slots: Message)
      requires Valid() && FieldsOk(fields)
      modifies this
      ensures Valid() && ok == DecodeMessage(fields, was, old(Rest())).Some?
      ensures ok ==> Some(slots) == DecodeMessage(fields, was, old(Rest())) && End() == old(End())
      decreases bytesLeft, 4
    {
      slots := was;
      if |was| != |fields| { return false, was; }
      var iter := new FieldIter(fields, 0);
      var seen: set<nat>, filling: Option<nat> := {}, None;
      ghost var start := Decoding(was, {}, None);
      while bytesLeft > 0
        invariant Valid() && iter.Valid() && iter.fields == fields && |slots| == |fields|
        invariant bytesLeft <= old(bytesLeft) && End() == old(End())
        invariant DecodeFields(fields, start, old(Rest())) == DecodeFields(fields, Decoding(slots, seen, filling), Rest())
        decreases bytesLeft
      {
        DecodeStep(fields, Decoding(slots, seen, filling), Rest());
        hide DecodeFields, ReadVarint32, FindField, FieldsOk, Occurrence, Skip;
        var tag;
        ok, tag := DecodeVarint32();
        if !ok { return; }
        if tag == 0 { break; }
        var found := iter.Find(tag / 8);
        if !found {
          ok := SkipField(tag % 8);
          if !ok { return; }
          continue;
        }
        if |fields| == 0 {
          var stray;
          ok, stray := DecodeVarint32();
          if !ok { return; }
          continue;
        }
        ok, slots, seen, filling := DecodeOccurrence(iter, slots, seen, filling, tag % 8);
        if !ok { return; }
      }
      ok := Filled(fields, Decoding(slots, seen, filling));
      if !ok { return; }
      ok := AllRequiredSeen(iter, seen);
    }
  }

  /** The check of the required fields, from wherever the iterator is. */
  method AllRequiredSeen(iter: FieldIter, seen: set<nat>) returns (ok: bool)
    requires iter.Valid()
    modifies iter
    ensures ok <==> forall r :: 0 <= r < RequiredIndex(iter.fields, |iter.fields|) && r < MAX_REQUIRED_FIELDS ==> r in seen
  {
    var fields := iter.fields;
    var count := 0;
    if |fields| > 0 {
      var more, last := true, iter.pos;
      while more
        invariant iter.Valid() && iter.fields == fields && (more ==> last == iter.pos)
        invariant !more ==> last == |fields| - 1 && count == RequiredIndex(fields, last)
        decreases more, |fields| - iter.pos
      {
        count, last := iter.requiredFieldIndex, iter.pos;
        more := iter.Next();
        if more { last := iter.pos; }
      }
      if fields[last].rule.Required? { count := count + 1; }
    }
    if count > MAX_REQUIRED_FIELDS { count := MAX_REQUIRED_FIELDS; }
    for r := 0 to count
      invariant forall q :: 0 <= q < r ==> q in seen
    {
      if r !in seen { return false; }
    }
    ok := true;
  }

  /** pb_decode from a buffer. */
  method DecodeBuffer(fields: seq<Field>, buf: Bytes) returns (ok: bool, m: Message)
    requires FieldsOk(fields)
    ensures ok <==> Decode(fields, buf).Some?
    ensures ok ==> Some(m) == Decode(fields, buf)
  {
    var stream := new IStream(buf, 0, |buf|);
    assert stream.Rest() == buf;
    ok, m := stream.DecodeNoinit(fields, Zeros(fields));
  }
}
