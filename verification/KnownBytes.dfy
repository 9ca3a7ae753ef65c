/**
 * The stored formats, byte for byte: what numbers, keys, batches, log records, block entries and messages look like
 * (util/coding.cc, util/crc32c.h, db/dbformat.cc, db/write_batch.cc, db/log_format.h, table/block_builder.cc,
 * pb_encode.c). Writer and reader could agree on another format and still read back all that they write; files and
 * messages made by other programs could not be read then.
 */
module KnownBytes {
  import opened Wrappers
  import opened InternalKeys
  import opened Coding
  import Crc32c
  import KeyCoding
  import WriteBatches
  import Logs
  import Blocks
  import Bloom
  import FilterBlocks
  import TableFormat
  import P = PbMessages

  // Numbers

  /** Every byte but the last has its high bit set, and there is no last byte that says nothing. */
  ghost predicate IsVarint(b: Bytes) {
    && b != [] && b[|b| - 1] < 128 && (|b| > 1 ==> b[|b| - 1] > 0)
    && forall i :: 0 <= i < |b| - 1 ==> b[i] >= 128
  }

  /** The low seven bits of each byte as digits, the lowest first. */
  function Digits(b: Bytes): nat { if b == [] then 0 else b[0] as nat % 128 + 128 * Digits(b[1..]) }

  /** A number is stored as the one string of such bytes with its digits. */
  lemma VarintExactly(v: nat, b: Bytes)
    ensures b == Varint(v) <==> IsVarint(b) && Digits(b) == v
  {
    hide Varint, Digits, IsVarint;
    StoredDigits(v);
    if IsVarint(b) && Digits(b) == v { OneOfItsDigits(v, b); }
  }

  lemma {:induction false} StoredDigits(v: nat)
    ensures IsVarint(Varint(v)) && Digits(Varint(v)) == v
  {
    var b := Varint(v);
    if v < 128 {
      assert Digits(b) == v + 128 * Digits([]);
    } else {
      StoredDigits(v / 128);
      assert b[1..] == Varint(v / 128);
      hide Varint;
      MoreDigits(b);
    }
  }

  lemma {:induction false} OneOfItsDigits(v: nat, b: Bytes)
    requires IsVarint(b) && Digits(b) == v
    ensures b == Varint(v)
    decreases |b|
  {
    var rest := b[1..];
    assert b == [b[0]] + rest;
    if |b| == 1 {
      assert Digits(rest) == 0;
    } else {
      TailIsVarint(b);
      PositiveDigits(rest);
      OneOfItsDigits(v / 128, rest);
    }
  }

  lemma TailIsVarint(b: Bytes)
    requires IsVarint(b) && |b| > 1
    ensures IsVarint(b[1..]) && b[0] >= 128
  {
  }

  lemma MoreDigits(b: Bytes)
    requires |b| > 1 && b[0] >= 128 && IsVarint(b[1..]) && Digits(b[1..]) > 0
    ensures IsVarint(b)
  {
    if |b| == 2 { assert Digits(b[1..]) == b[1] as nat % 128 + 128 * Digits(b[2..]) && b[1..][1..] == []; }
    forall i | 0 <= i < |b| - 1
      ensures b[i] >= 128
    {
      if i > 0 { assert b[1..][i - 1] == b[i]; }
    }
  }

  lemma {:induction false} PositiveDigits(b: Bytes)
    requires IsVarint(b) && (|b| == 1 ==> b[0] > 0)
    ensures Digits(b) > 0
  {
    if |b| > 1 {
      TailIsVarint(b);
      PositiveDigits(b[1..]);
    }
  }

  /** A varint is read up to the first byte without a high bit, if that is among the first `max`. */
  lemma {:induction false} ReadExactly(b: Bytes, max: nat, n: nat)
    requires n < |b| && b[n] < 128 && forall i :: 0 <= i < n ==> b[i] >= 128
    ensures DecodeVarint(b, max) == if n < max then Some(Parsed(Digits(b[..n + 1]), b[n + 1..])) else None
  {
    var rest := b[1..];
    if n == 0 {
      assert b[..1][1..] == [];
    } else if max > 0 {
      assert b[..n + 1][1..] == rest[..n] && b[n + 1..] == rest[n..];
      ReadExactly(rest, max - 1, n - 1);
    }
  }

  lemma {:induction false} EndlessIsRefused(b: Bytes, max: nat)
    requires forall i :: 0 <= i < |b| ==> b[i] >= 128
    ensures DecodeVarint(b, max) == None
  {
    if b != [] && max > 0 { EndlessIsRefused(b[1..], max - 1); }
  }

  /** Fixed numbers are stored low byte first. */
  lemma FixedBytes(v: nat, n: nat)
    ensures Fixed(v, n + 4)
            == [v % 0x100, v / 0x100 % 0x100, v / 0x1_0000 % 0x100, v / 0x100_0000 % 0x100] + Fixed(v / TWO_32, n)
  {
    var w, x, y := v / 0x100, v / 0x1_0000, v / 0x100_0000;
    assert w / 0x100 == x && x / 0x100 == y && y / 0x100 == v / TWO_32;
    NextByte(v, n + 3);
    NextByte(w, n + 2);
    NextByte(x, n + 1);
    NextByte(y, n);
    hide Fixed;
    var rest := Fixed(v / TWO_32, n);
    assert [v % 0x100] + ([w % 0x100] + ([x % 0x100] + ([y % 0x100] + rest)))
           == [v % 0x100, w % 0x100, x % 0x100, y % 0x100] + rest;
  }

  lemma NextByte(v: nat, n: nat)
    ensures Fixed(v, n + 1) == [v % 0x100] + Fixed(v / 0x100, n)
  {
  }

  /** An internal key: the user's bytes, the type, and seven bytes of sequence number, the lowest first. */
  lemma KeyBytes(user: Bytes, seqno: nat, kind: Byte)
    requires seqno <= MAX_SEQUENCE
    ensures 256 * seqno + kind < TWO_64
    ensures KeyCoding.AppendKey(user, 256 * seqno + kind) == user + [kind] + Fixed(seqno, 7)
  {
    var tag := 256 * seqno + kind;
    assert tag % 256 == kind && tag / 256 == seqno;
    assert Fixed(tag, 8) == [kind] + Fixed(seqno, 7);
  }

  /** Checksums are stored turned right by fifteen bits, with a constant added. */
  lemma MaskedBits(high: bv32, low: bv32)
    requires high < 0x2_0000 && low < 0x8000
    ensures Crc32c.Mask((high << 15) | low) == ((low << 17) | high) + 0xa282_ead8
  {
  }

  // Batches, logs and blocks

  /** A sequence number of eight bytes, a count of four, and a value (1) and a deletion (0) of the key "a". */
  lemma BatchBytes()
    ensures WriteBatches.Represents([5, 0, 0, 0, 0, 0, 0, 0, 2, 0, 0, 0, 1, 1, 97, 1, 98, 0, 1, 97], 5,
                                    [WriteBatches.Put([97], [98]), WriteBatches.Delete([97])])
  {
    hide Fixed, LengthPrefixed;
    var put, delete := WriteBatches.Put([97], [98]), WriteBatches.Delete([97]);
    UpdateBytes();
    var updates := [put, delete];
    assert updates[1..] == [delete] && [delete][1..] == [];
    assert WriteBatches.EncodeUpdates([delete]) == [0, 1, 97];
    assert WriteBatches.EncodeUpdates(updates) == [1, 1, 97, 1, 98, 0, 1, 97];
    SmallFixed();
  }

  lemma SmallFixed()
    ensures Fixed(5, 8) == [5, 0, 0, 0, 0, 0, 0, 0] && Fixed(2, 4) == [2, 0, 0, 0]
    ensures Fixed(258, 4) == [2, 1, 0, 0] && Fixed(258, 8) == [2, 1, 0, 0, 0, 0, 0, 0]
  {
    hide Fixed;
    FixedBytes(0, 0);
    FixedBytes(2, 0);
    FixedBytes(5, 4);
    FixedBytes(258, 0);
    FixedBytes(258, 4);
  }

  lemma UpdateBytes()
    ensures WriteBatches.EncodeUpdate(WriteBatches.Put([97], [98])) == [1, 1, 97, 1, 98]
    ensures WriteBatches.EncodeUpdate(WriteBatches.Delete([97])) == [0, 1, 97]
  {
    assert LengthPrefixed([97]) == [1, 97] && LengthPrefixed([98]) == [1, 98];
  }

  /** How many pieces a record is written in from the beginning of a block on. */
  function Pieces(n: nat): nat { if n == 0 then 1 else (n + 32760) / 32761 }

  /** A piece holds up to 32761 bytes behind seven of its own, which fills a block. */
  lemma {:induction false} RecordSize(p: nat, data: Bytes, begin: bool)
    requires p % 32768 == 0
    ensures |Logs.Encoded(p, data, begin)| == |data| + 7 * Pieces(|data|)
    decreases |data|
  {
    hide Logs.Encoded, Pieces;
    NextPiece(p, data, begin);
    PiecesLeft(|data|);
    if |data| > 32761 { RecordSize(p + 32768, data[32761..], false); }
  }

  lemma PiecesLeft(n: nat)
    ensures Pieces(n) == if n <= 32761 then 1 else 1 + Pieces(n - 32761)
  {
  }

  lemma NextPiece(p: nat, data: Bytes, begin: bool)
    requires p % 32768 == 0
    ensures |Logs.Encoded(p, data, begin)|
            == if |data| <= 32761 then |data| + 7 else 32768 + |Logs.Encoded(p + 32768, data[32761..], false)|
  {
    PieceAtBlock(p, data, begin);
    hide Logs.FragmentLength, Logs.Fragment;
  }

  lemma PieceAtBlock(p: nat, data: Bytes, begin: bool)
    requires p % 32768 == 0
    ensures Logs.FragmentLength(p, |data|) == if |data| <= 32761 then |data| else 32761
    ensures |Logs.Fragment(p, data, begin)| == Logs.FragmentLength(p, |data|) + 7
  {
  }

  /**
   * At the beginning of a block: the masked checksum of the kind and the payload, the length, low byte first, the kind,
   * which is 1 for a whole record and 2, 3 and 4 for its first, middle and last piece, and the payload.
   */
  lemma PieceBytes(p: nat, data: Bytes, begin: bool)
    requires p % 32768 == 0
    ensures var n := if |data| <= 32761 then |data| else 32761;
            var kind := if begin then (if |data| <= 32761 then 1 else 2) else if |data| <= 32761 then 4 else 3;
            && Logs.Fragment(p, data, begin)
               == Fixed(Crc32c.Mask(Crc32c.Value([kind] + data[..n])) as nat, 4) + [n % 256, n / 256, kind] + data[..n]
            && Logs.Fragment(p, data, begin) <= Logs.Encoded(p, data, begin)
  {
    hide Fixed, Crc32c.Mask, Crc32c.Value;
    PieceAtBlock(p, data, begin);
    assert Logs.Trailer(p) == 0 && Logs.Zeros(0) == [];
  }

  /** How many bytes are shared with the key before, how many are not, the length of the value, and the bytes. */
  lemma EntryBytes()
    ensures Blocks.EncodeEntry(2, Blocks.KV([97, 98, 99], [120])) == [2, 1, 1, 99, 120]
    ensures Blocks.EncodeEntry(0, Blocks.KV([97], [])) == [0, 1, 0, 97]
  {
  }

  /** A block: its entries, where its restart points are, four bytes each, and how many there are. */
  lemma BlockBytes()
    ensures Blocks.Contains([0, 1, 1, 97, 98, 0, 0, 0, 0, 1, 0, 0, 0], [Blocks.KV([97], [98])])
  {
    hide Fixed, Blocks.Points, Blocks.LayoutOk, Blocks.RestartsAre;
    var data: Bytes := [0, 1, 1, 97, 98];
    FixedBytes(1, 0);
    FixedBytes(0, 0);
    assert Blocks.Points([0]) == [0, 0, 0, 0] by { OnePoint(); }
    OneEntry();
    assert Fixed(1, 4) == [1, 0, 0, 0];
    assert data + [0, 0, 0, 0] + [1, 0, 0, 0] == [0, 1, 1, 97, 98, 0, 0, 0, 0, 1, 0, 0, 0];
    assert Blocks.IsBlock(data + [0, 0, 0, 0] + [1, 0, 0, 0], data, [0], OneLayout());
  }

  function OneLayout(): Blocks.Layout { Blocks.Layout([Blocks.KV([97], [98])], [0, 5], [0], [0]) }

  lemma OnePoint()
    ensures Blocks.Points([0]) == [0, 0, 0, 0]
  {
    FixedBytes(0, 0);
    hide Fixed;
    assert [0][..0] == [];
  }

  lemma OneEntry()
    ensures Blocks.LayoutOk([0, 1, 1, 97, 98], OneLayout()) && Blocks.RestartsAre([0], OneLayout())
  {
    var e, data := Blocks.KV([97], [98]), [0, 1, 1, 97, 98];
    assert data[0..5] == data && Blocks.EncodeEntry(0, e) == data;
    hide Blocks.EncodeEntry;
    assert Blocks.EntryOk(data, OneLayout(), 0);
  }

  /** Behind a block: a zero for its type, and the masked checksum of both. */
  lemma TrailerBytes(contents: Bytes)
    ensures TableFormat.Stored(contents) == contents + [0] + Fixed(Crc32c.Mask(Crc32c.Value(contents + [0])) as nat, 4)
  {
  }

  /** A footer: offset and size of the metaindex and then of the index, zeros up to forty bytes, and the magic number. */
  lemma FooterBytes(m: TableFormat.Handle, i: TableFormat.Handle)
    requires TableFormat.InWords(m) && TableFormat.InWords(i)
    ensures var b := TableFormat.EncodeFooter(m, i);
            var handles := Varint(m.offset) + Varint(m.size) + Varint(i.offset) + Varint(i.size);
            && |b| == 48 && handles <= b && |handles| <= 40 && (forall k :: |handles| <= k < 40 ==> b[k] == 0)
            && b[40..] == [0x57, 0xfb, 0x80, 0x8b, 0x24, 0x75, 0x47, 0xdb]
  {
    hide Varint, TableFormat.EncodeHandle, TableFormat.EncodeFooter, TableFormat.DecodeFooter;
    TableFormat.FooterRoundTrip(m, i);
    TableFormat.MagicIsRequired(TableFormat.EncodeFooter(m, i));
    HandlesInFooter(m, i);
  }

  lemma HandlesInFooter(m: TableFormat.Handle, i: TableFormat.Handle)
    requires TableFormat.InWords(m) && TableFormat.InWords(i)
    ensures var b := TableFormat.EncodeFooter(m, i);
            var handles := Varint(m.offset) + Varint(m.size) + Varint(i.offset) + Varint(i.size);
            handles <= b && |handles| <= 40 && forall k :: |handles| <= k < 40 ==> b[k] == 0
  {
    TableFormat.HandleIsShort(m);
    TableFormat.HandleIsShort(i);
    hide Varint, Fixed, TableFormat.InWords;
    assert TableFormat.EncodeHandle(m) + TableFormat.EncodeHandle(i)
           == Varint(m.offset) + Varint(m.size) + Varint(i.offset) + Varint(i.size);
  }

  /** Probes of a Bloom filter advance by the hash rotated right by seventeen bits. */
  lemma ProbeSteps(a: nat, b: nat)
    requires a < 0x8000 && b < 0x2_0000
    ensures 0x2_0000 * a + b < TWO_32 && Bloom.Delta(0x2_0000 * a + b) == a + 0x8000 * b
  {
    var h := 0x2_0000 * a + b;
    assert h / 0x2_0000 == a && h % 0x2_0000 == b;
  }

  /** A filter block ends with where its offsets begin and the eleven that stands for two kilobytes a filter. */
  lemma FilterBlockBytes(hash: Bloom.Hash, contents: Bytes, groups: seq<seq<Bytes>>)
    requires FilterBlocks.IsFilterBlock(contents, hash, groups)
    ensures var n := |contents|;
            && n >= 4 * |groups| + 5 && contents[n - 1] == 11
            && DecodeFixed(contents[n - 5..n - 1]) == n - 4 * |groups| - 5
    ensures FilterBlocks.IsFilterBlock([0, 0, 0, 0, 11], hash, [])
  {
    hide DecodeFixed;
    FilterBlocks.BlockSays(hash, contents, groups, |groups|);
    var result, offsets :| FilterBlocks.IsFilterBlockOf(contents, hash, groups, result, offsets);
    assert |contents| == |result| + 4 * |offsets| + 1;
    FilterBlocks.OffsetStored(contents, result, offsets, Blocks.Points(offsets), |groups|);
    EmptyFilterBlock(hash);
  }

  lemma EmptyFilterBlock(hash: Bloom.Hash)
    ensures FilterBlocks.IsFilterBlock([0, 0, 0, 0, 11], hash, [])
  {
    OnePoint();
    assert FilterBlocks.IsFilterBlockOf([0, 0, 0, 0, 11], hash, [], [], [0]);
  }

  // Messages

  function FieldOf(tag: nat, rule: P.Rule, lt: P.LType): P.Field { P.Field(tag, rule, lt, P.Slot(0, 0, None)) }

  function One(rule: P.Rule, lt: P.LType, tag: nat, slot: seq<P.Value>): Option<Bytes> {
    P.EncodeMessage([FieldOf(tag, rule, lt)], [slot])
  }

  /** A message of one field is what the field is. */
  lemma OneField(f: P.Field, slot: seq<P.Value>)
    ensures P.EncodeMessage([f], [slot]) == P.EncodeField(f, slot)
  {
    hide P.EncodeField;
    assert P.EncodeMessage([f][1..], [slot][1..]) == Some([]);
    var b := P.EncodeField(f, slot);
    if b.Some? { assert b.value + [] == b.value; }
  }

  /** Number 150 as field 1; seven letters as field 2; the first as a message in field 3. */
  lemma ValueBytes()
    ensures One(P.Singular, P.IntT(4), 1, [P.Num(150)]) == Some([0x08, 0x96, 0x01])
    ensures One(P.Singular, P.StringT(8), 2, [P.Data([116, 101, 115, 116, 105, 110, 103])])
            == Some([0x12, 7, 116, 101, 115, 116, 105, 110, 103])
    ensures One(P.Optional, P.MessageT([FieldOf(1, P.Singular, P.IntT(4))]), 3, [P.Msg([[P.Num(150)]])])
            == Some([0x1a, 3, 0x08, 0x96, 0x01])
  {
    SmallVarints();
    NumberField();
    StringField();
    MessageField();
  }

  lemma SmallVarints()
    ensures forall n: nat :: n < 128 ==> Varint(n) == [n]
    ensures Varint(150) == [0x96, 0x01] && Varint(270) == [0x8e, 0x02] && Varint(86942) == [0x9e, 0xa7, 0x05]
  {
  }

  lemma NumberField()
    ensures One(P.Singular, P.IntT(4), 1, [P.Num(150)]) == Some([0x08, 0x96, 0x01])
  {
    SmallVarints();
    hide Varint;
    OneField(FieldOf(1, P.Singular, P.IntT(4)), [P.Num(150)]);
    assert P.EncodeItem(P.IntT(4), P.Num(150)) == Some([0x96, 0x01]);
    assert P.FieldTag(0, 1) == [8] && [8] + [0x96, 0x01] == [0x08, 0x96, 0x01];
  }

  lemma StringField()
    ensures One(P.Singular, P.StringT(8), 2, [P.Data([116, 101, 115, 116, 105, 110, 103])])
            == Some([0x12, 7, 116, 101, 115, 116, 105, 110, 103])
  {
    SmallVarints();
    hide Varint;
    var s: Bytes := [116, 101, 115, 116, 105, 110, 103];
    OneField(FieldOf(2, P.Singular, P.StringT(8)), [P.Data(s)]);
    assert [7] + s == [7, 116, 101, 115, 116, 105, 110, 103];
    assert [0x12] + ([7] + s) == [0x12, 7, 116, 101, 115, 116, 105, 110, 103];
    assert P.EncodeItem(P.StringT(8), P.Data(s)) == Some([7, 116, 101, 115, 116, 105, 110, 103]);
    assert P.FieldTag(2, 2) == [0x12];
  }

  lemma MessageField()
    ensures One(P.Optional, P.MessageT([FieldOf(1, P.Singular, P.IntT(4))]), 3, [P.Msg([[P.Num(150)]])])
            == Some([0x1a, 3, 0x08, 0x96, 0x01])
  {
    SmallVarints();
    NumberField();
    hide Varint, P.EncodeMessage;
    var lt, m := P.MessageT([FieldOf(1, P.Singular, P.IntT(4))]), P.Msg([[P.Num(150)]]);
    OneField(FieldOf(3, P.Optional, lt), [m]);
    assert [3] + [0x08, 0x96, 0x01] == [3, 0x08, 0x96, 0x01] && [0x1a] + [3, 0x08, 0x96, 0x01] == [0x1a, 3, 0x08, 0x96, 0x01];
    assert P.EncodeItem(lt, m) == Some([3, 0x08, 0x96, 0x01]);
    assert P.FieldTag(2, 3) == [0x1a];
  }

  /** Negative numbers take ten bytes, but zigzag ones few; the fixed ones four and eight, the lowest first. */
  lemma NumberBytes()
    ensures P.EncodeNumber(P.IntT(4), -1) == Some([255, 255, 255, 255, 255, 255, 255, 255, 255, 1])
    ensures P.EncodeNumber(P.SIntT(4), -1) == Some([1]) && P.EncodeNumber(P.SIntT(4), 1) == Some([2])
    ensures P.EncodeNumber(P.SIntT(4), -2) == Some([3]) && P.EncodeNumber(P.BoolT, 1) == Some([1])
    ensures P.EncodeNumber(P.Fixed32T, 258) == Some([2, 1, 0, 0])
    ensures P.EncodeNumber(P.Fixed64T, 258) == Some([2, 1, 0, 0, 0, 0, 0, 0])
  {
    SmallFixed();
    SmallVarints();
    hide Fixed;
    AllOnes();
    hide Varint;
  }

  lemma AllOnes()
    ensures Varint(0xffff_ffff_ffff_ffff) == [255, 255, 255, 255, 255, 255, 255, 255, 255, 1]
  {
    LowBits(0xffff_ffff_ffff_ffff, 0x1ff_ffff_ffff_ffff);
    LowBits(0x1ff_ffff_ffff_ffff, 0x3_ffff_ffff_ffff);
    LowBits(0x3_ffff_ffff_ffff, 0x7ff_ffff_ffff);
    LowBits(0x7ff_ffff_ffff, 0xf_ffff_ffff);
    LowBits(0xf_ffff_ffff, 0x1fff_ffff);
    LowBits(0x1fff_ffff, 0x3f_ffff);
    LowBits(0x3f_ffff, 0x7fff);
    LowBits(0x7fff, 0xff);
    LowBits(0xff, 1);
    assert Varint(1) == [1];
    hide Varint;
  }

  lemma LowBits(v: nat, rest: nat)
    requires v == 128 * rest + 127 && rest > 0
    ensures Varint(v) == [255] + Varint(rest)
  {
  }

  /** Arrays of numbers are packed behind one tag and one length; those of strings have a tag for each. */
  lemma ArrayBytes()
    ensures One(P.Repeated(3), P.UIntT(4), 4, [P.Num(3), P.Num(270), P.Num(86942)])
            == Some([0x22, 6, 3, 0x8e, 0x02, 0x9e, 0xa7, 0x05])
    ensures One(P.Repeated(2), P.BytesT(1), 4, [P.Data([97]), P.Data([98])]) == Some([0x22, 1, 97, 0x22, 1, 98])
  {
    PackedField();
    StringsField();
  }

  lemma PackedField()
    ensures One(P.Repeated(3), P.UIntT(4), 4, [P.Num(3), P.Num(270), P.Num(86942)])
            == Some([0x22, 6, 3, 0x8e, 0x02, 0x9e, 0xa7, 0x05])
  {
    SmallVarints();
    hide Varint;
    var lt, numbers := P.UIntT(4), [P.Num(3), P.Num(270), P.Num(86942)];
    var two, one := numbers[1..], numbers[2..];
    OneField(FieldOf(4, P.Repeated(3), lt), numbers);
    assert two[1..] == one && one[1..] == [];
    assert P.EncodeItems(lt, one[1..]) == Some([]);
    assert P.EncodeItem(lt, one[0]) == Some([0x9e, 0xa7, 0x05]) && P.EncodeItem(lt, two[0]) == Some([0x8e, 0x02]);
    assert P.EncodeItem(lt, numbers[0]) == Some([3]);
    var a, b, c: Bytes := [0x9e, 0xa7, 0x05], [0x8e, 0x02], [3];
    assert a + [] == a && b + a == [0x8e, 0x02, 0x9e, 0xa7, 0x05] && c + (b + a) == [3, 0x8e, 0x02, 0x9e, 0xa7, 0x05];
    assert [0x22] + ([6] + (c + (b + a))) == [0x22, 6, 3, 0x8e, 0x02, 0x9e, 0xa7, 0x05];
    assert P.EncodeItems(lt, one) == Some([0x9e, 0xa7, 0x05]);
    assert P.EncodeItems(lt, two) == Some([0x8e, 0x02, 0x9e, 0xa7, 0x05]);
    assert P.EncodeItems(lt, numbers) == Some([3, 0x8e, 0x02, 0x9e, 0xa7, 0x05]);
    assert P.FieldTag(2, 4) == [0x22];
  }

  lemma StringsField()
    ensures One(P.Repeated(2), P.BytesT(1), 4, [P.Data([97]), P.Data([98])]) == Some([0x22, 1, 97, 0x22, 1, 98])
  {
    SmallVarints();
    hide Varint;
    var f, strings := FieldOf(4, P.Repeated(2), P.BytesT(1)), [P.Data([97]), P.Data([98])];
    var one := strings[1..];
    OneField(f, strings);
    assert one[1..] == [] && P.EncodeTagged(f, one[1..]) == Some([]);
    assert P.FieldTag(2, 4) == [0x22];
    var a, b: Bytes := [1, 97], [1, 98];
    assert [1] + [97] == a && [1] + [98] == b && [0x22] + a == [0x22, 1, 97] && [0x22] + b == [0x22, 1, 98];
    assert [0x22, 1, 98] + [] == [0x22, 1, 98] && [0x22, 1, 97] + [0x22, 1, 98] == [0x22, 1, 97, 0x22, 1, 98];
    assert P.EncodeItem(f.ltype, one[0]) == Some(b) && P.EncodeItem(f.ltype, strings[0]) == Some(a);
    assert P.Tagged(f, one[0]) == Some([0x22, 1, 98]) && P.Tagged(f, strings[0]) == Some([0x22, 1, 97]);
    assert P.EncodeTagged(f, one) == Some([0x22, 1, 98]);
    assert P.EncodeTagged(f, strings) == Some([0x22, 1, 97, 0x22, 1, 98]);
  }

  /**
   * What is left out: a singular number, string or array of bytes that is zero or empty, and of all other fields those
   * that are not there. Everything else takes up bytes.
   */
  lemma OmittedExactly(f: P.Field, slot: seq<P.Value>)
    requires P.FieldOk(f) && P.SlotOk(f, slot) && P.EncodeField(f, slot).Some?
    requires f.rule.Singular? ==> !f.ltype.MessageT? && !f.ltype.InlineT?
    ensures P.EncodeField(f, slot).value == []
            <==> if f.rule.Singular? then slot[0] == P.Zero(f.ltype) else slot == []
  {
    hide P.EncodeItem, P.EncodeItems, P.Tagged, Varint, P.TypeOk, P.IsZero, P.Zero;
    assert P.EncodeTagged(f, slot).Some? && slot != [] ==> P.Tagged(f, slot[0]).Some?;
    if slot != [] { TaggedIsLong(f, slot[0]); }
    if slot != [] {
      assert P.ValueOk(f.ltype, slot[0]);
      if f.rule.Singular? { ZeroExactly(f.ltype, slot[0]); }
    }
  }

  lemma TaggedIsLong(f: P.Field, v: P.Value)
    ensures P.Tagged(f, v).Some? ==> P.Tagged(f, v).value != []
  {
    hide Varint;
  }

  lemma ZeroExactly(lt: P.LType, v: P.Value)
    requires P.ValueOk(lt, v) && !lt.MessageT? && !lt.InlineT?
    ensures P.IsZero(lt, v) <==> v == P.Zero(lt)
  {
  }
}
