/**
 * What readers make of bytes that were cut short or damaged (util/coding.cc, db/write_batch.cc, db/version_edit.cc,
 * table/format.cc): everything before the fault is taken, and the fault is reported.
 */
module MalformedInputs {
  import opened Wrappers
  import opened InternalKeys
  import opened Coding
  import opened WriteBatches
  import KeyCoding
  import M = ManifestCodec
  import T = TableFormat
  import LogDamage
  import Crc32c

  // Cut numbers and strings

  lemma {:induction false} CutVarintIsRefused(v: nat, n: nat, max: nat)
    requires n < |Varint(v)|
    ensures DecodeVarint(Varint(v)[..n], max) == None
  {
    if n > 0 && max > 0 {
      assert Varint(v)[..n][1..] == Varint(v / 128)[..n - 1];
      CutVarintIsRefused(v / 128, n - 1, max - 1);
    }
  }

  lemma CutNumberIsRefused(v: nat, n: nat)
    requires n < |Varint(v)|
    ensures GetVarint32(Varint(v)[..n]) == None && GetVarint64(Varint(v)[..n]) == None
  {
    CutVarintIsRefused(v, n, 5);
    CutVarintIsRefused(v, n, 10);
  }

  /** A cut in two parts is one in the first, or in the second behind the whole first. */
  lemma CutOfTwo(a: Bytes, b: Bytes, n: nat)
    requires n <= |a + b|
    ensures (a + b)[..n] == if n < |a| then a[..n] else a + b[..n - |a|]
  {
  }

  lemma CutStringIsRefused(s: Bytes, n: nat)
    requires |s| < TWO_32 && n < |LengthPrefixed(s)|
    ensures GetLengthPrefixed(LengthPrefixed(s)[..n]) == None
  {
    var length := Varint(|s|);
    CutOfTwo(length, s, n);
    if n < |length| {
      CutNumberIsRefused(|s|, n);
    } else {
      Varint32RoundTrip(|s|, s[..n - |length|]);
    }
  }

  // Batches

  /** Updates before a fault are handed on. */
  lemma {:induction false} UpdatesBeforeFault(updates: seq<Update>, bad: Bytes)
    requires AllEncodable(updates)
    ensures Updates(EncodeUpdates(updates) + bad) == (updates + Updates(bad).0, Updates(bad).1)
  {
    hide EncodeUpdate, GetUpdate;
    if updates == [] {
      assert EncodeUpdates(updates) + bad == bad && updates + Updates(bad).0 == Updates(bad).0;
    } else {
      var first, rest := EncodeUpdate(updates[0]), EncodeUpdates(updates[1..]) + bad;
      assert EncodeUpdates(updates) + bad == first + rest;
      UpdateRoundTrip(updates[0], rest);
      assert first != [] by { EncodedIsLong(updates[0]); }
      UpdatesBeforeFault(updates[1..], bad);
      var more := Updates(bad).0;
      assert [updates[0]] + (updates[1..] + more) == updates + more;
    }
  }

  lemma BatchParts(first: U64, count: U32, data: Bytes)
    ensures var rep := Fixed64(first) + Fixed32(count) + data; |rep| >= 12 && rep[12..] == data && Count(rep) == count
  {
    hide Fixed, DecodeFixed;
    FixedInverts(count, first);
    var rep := Fixed64(first) + Fixed32(count) + data;
    assert rep[8..12] == Fixed32(count);
  }

  /** A batch whose count is not that of its updates is refused when they have all been handed on. */
  lemma WrongCountIsReported(first: U64, count: U32, updates: seq<Update>)
    requires AllEncodable(updates) && count != |updates| % TWO_32
    ensures Iterated(Fixed64(first) + Fixed32(count) + EncodeUpdates(updates)) == (updates, WrongCount)
  {
    hide Fixed, Count;
    BatchParts(first, count, EncodeUpdates(updates));
    UpdatesRoundTrip(updates);
  }

  /** So is one with a tag that means nothing, whatever its count. */
  lemma UnknownTagIsReported(first: U64, count: U32, updates: seq<Update>, bad: Bytes)
    requires AllEncodable(updates) && bad != [] && bad[0] > 1
    ensures Iterated(Fixed64(first) + Fixed32(count) + (EncodeUpdates(updates) + bad)) == (updates, UnknownTag)
  {
    hide Fixed, Count, EncodeUpdates;
    BatchParts(first, count, EncodeUpdates(updates) + bad);
    UpdatesBeforeFault(updates, bad);
    assert Updates(bad) == ([], UnknownTag) && updates + [] == updates;
  }

  lemma CutUpdateIsRefused(u: Update, n: nat)
    requires Encodable(u) && 0 < n < |EncodeUpdate(u)|
    ensures GetUpdate(EncodeUpdate(u)[..n]).0 == if u.Put? then BadPut else BadDelete
  {
    hide LengthPrefixed, GetLengthPrefixed;
    var b, key := EncodeUpdate(u)[..n], LengthPrefixed(u.key);
    match u
    case Put(_, value) =>
      var v := LengthPrefixed(value);
      assert b[0] == 1 && b[1..] == (key + v)[..n - 1];
      CutOfTwo(key, v, n - 1);
      if n - 1 < |key| {
        CutStringIsRefused(u.key, n - 1);
      } else {
        LengthPrefixedRoundTrip(u.key, v[..n - 1 - |key|]);
        CutStringIsRefused(value, n - 1 - |key|);
      }
    case Delete(_) =>
      assert b[0] == 0 && b[1..] == key[..n - 1];
      CutStringIsRefused(u.key, n - 1);
  }

  /** And so is one that ends within an update. */
  lemma CutBatchIsReported(first: U64, count: U32, updates: seq<Update>, u: Update, n: nat)
    requires AllEncodable(updates) && Encodable(u) && 0 < n < |EncodeUpdate(u)|
    ensures Iterated(Fixed64(first) + Fixed32(count) + (EncodeUpdates(updates) + EncodeUpdate(u)[..n]))
            == (updates, if u.Put? then BadPut else BadDelete)
  {
    hide Fixed, Count, EncodeUpdates, EncodeUpdate, GetUpdate;
    var bad := EncodeUpdate(u)[..n];
    BatchParts(first, count, EncodeUpdates(updates) + bad);
    UpdatesBeforeFault(updates, bad);
    CutUpdateIsRefused(u, n);
    assert Updates(bad) == ([], if u.Put? then BadPut else BadDelete) && updates + [] == updates;
  }

  // Edits of the manifest

  /** What follows some fields is decoded into the edit they make. */
  lemma {:induction false} FieldsBeforeFault(fields: seq<M.Field>, edit: M.Edit, bad: Bytes, keys: KeyCoding.Places)
    requires M.FieldsOk(fields, keys)
    ensures M.DecodeEdit(M.EncodeFields(fields, keys) + bad, edit, keys) == M.DecodeEdit(bad, M.AddFields(edit, fields), keys)
    decreases |fields|
  {
    hide M.EncodeField, M.GetField, M.FieldOk;
    if fields == [] {
      assert M.EncodeFields(fields, keys) + bad == bad;
    } else {
      var first, rest := M.EncodeField(fields[0], keys), M.EncodeFields(fields[1..], keys) + bad;
      assert M.EncodeFields(fields, keys) + bad == first + rest;
      M.FieldRoundTrip(fields[0], rest, keys);
      M.EncodedIsLong(fields[0], keys);
      FieldsBeforeFault(fields[1..], M.AddField(edit, fields[0]), bad, keys);
    }
  }

  /** The tags are 1 to 7 and 9; a field with any other is refused. */
  lemma UnknownFieldIsRefused(fields: seq<M.Field>, edit: M.Edit, tag: U32, rest: Bytes, keys: KeyCoding.Places)
    requires M.FieldsOk(fields, keys) && (tag == 0 || tag == 8 || tag > 9)
    ensures M.DecodeEdit(M.EncodeFields(fields, keys) + (Varint(tag) + rest), edit, keys) == M.Corrupt(M.UnknownTag)
  {
    hide Varint, GetVarint32, M.FieldsOk, M.EncodeFields, M.AddFields;
    FieldsBeforeFault(fields, edit, Varint(tag) + rest, keys);
    Varint32RoundTrip(tag, rest);
  }

  /** There are seven levels; a field that names another is refused. */
  lemma UnknownLevelIsRefused(fields: seq<M.Field>, edit: M.Edit, tag: U32, level: U32, rest: Bytes,
                              keys: KeyCoding.Places)
    requires M.FieldsOk(fields, keys) && 5 <= tag <= 7 && level >= 7
    ensures M.DecodeEdit(M.EncodeFields(fields, keys) + (Varint(tag) + (Varint(level) + rest)), edit, keys).Corrupt?
  {
    hide Varint, GetVarint32, M.FieldsOk, M.EncodeFields, M.AddFields;
    FieldsBeforeFault(fields, edit, Varint(tag) + (Varint(level) + rest), keys);
    Varint32RoundTrip(tag, Varint(level) + rest);
    Varint32RoundTrip(level, rest);
  }

  lemma CutFileIsRefused(f: M.FileMetaData, n: nat, keys: KeyCoding.Places)
    requires f.number < TWO_64 && f.size < TWO_64 && M.Keeps(f.smallest, keys) && M.Keeps(f.largest, keys)
    requires var b := Varint(f.number) + (Varint(f.size) +
                        (LengthPrefixed(keys.Encode(f.smallest)) + LengthPrefixed(keys.Encode(f.largest))));
             n < |b|
    ensures var b := Varint(f.number) + (Varint(f.size) +
                       (LengthPrefixed(keys.Encode(f.smallest)) + LengthPrefixed(keys.Encode(f.largest))));
            M.GetFile(b[..n], keys) == None
  {
    hide Varint, LengthPrefixed, GetVarint64, GetLengthPrefixed;
    var d := LengthPrefixed(keys.Encode(f.largest));
    var s := LengthPrefixed(keys.Encode(f.smallest));
    var c := s + d;
    var b := Varint(f.size) + c;
    CutOfTwo(Varint(f.number), b, n);
    if n < |Varint(f.number)| {
      CutNumberIsRefused(f.number, n);
    } else {
      var n1 := n - |Varint(f.number)|;
      Varint64RoundTrip(f.number, b[..n1]);
      CutOfTwo(Varint(f.size), c, n1);
      if n1 < |Varint(f.size)| {
        CutNumberIsRefused(f.size, n1);
      } else {
        var n2 := n1 - |Varint(f.size)|;
        Varint64RoundTrip(f.size, c[..n2]);
        CutOfTwo(s, d, n2);
        if n2 < |s| {
          CutStringIsRefused(keys.Encode(f.smallest), n2);
        } else {
          M.KeyRoundTrip(f.smallest, d[..n2 - |s|], keys);
          CutStringIsRefused(keys.Encode(f.largest), n2 - |s|);
        }
      }
    }
  }

  /** What stands behind the tag of a field. */
  function Behind(f: M.Field, keys: KeyCoding.Places): Bytes
    requires M.FieldOk(f, keys)
  {
    match f
    case Comparator(name) => LengthPrefixed(name)
    case LogNumber(n) => Varint(n)
    case PrevLogNumber(n) => Varint(n)
    case NextFileNumber(n) => Varint(n)
    case LastSequence(n) => Varint(n)
    case CompactPointer(level, key) => Varint(level) + LengthPrefixed(keys.Encode(key))
    case DeletedFile(level, n) => Varint(level) + Varint(n)
    case NewFile(level, f) =>
      Varint(level) + (Varint(f.number) + (Varint(f.size) +
        (LengthPrefixed(keys.Encode(f.smallest)) + LengthPrefixed(keys.Encode(f.largest)))))
  }

  function TagOf(f: M.Field): U32 {
    match f
    case Comparator(_) => 1
    case LogNumber(_) => 2
    case PrevLogNumber(_) => 9
    case NextFileNumber(_) => 3
    case LastSequence(_) => 4
    case CompactPointer(_, _) => 5
    case DeletedFile(_, _) => 6
    case NewFile(_, _) => 7
  }

  lemma FieldParts(f: M.Field, keys: KeyCoding.Places)
    requires M.FieldOk(f, keys)
    ensures M.EncodeField(f, keys) == [TagOf(f)] + Behind(f, keys)
  {
    hide LengthPrefixed;
    assert Varint(TagOf(f)) == [TagOf(f)];
  }

  lemma CutBehindTag(f: M.Field, n: nat, keys: KeyCoding.Places)
    requires M.FieldOk(f, keys) && n < |Behind(f, keys)|
    ensures M.GetTagged(TagOf(f), Behind(f, keys)[..n], keys).Bad?
  {
    hide Varint, LengthPrefixed, GetVarint32, GetVarint64, GetLengthPrefixed, M.GetFile;
    match f
    case Comparator(name) => CutStringIsRefused(name, n);
    case LogNumber(v) => CutNumberIsRefused(v, n);
    case PrevLogNumber(v) => CutNumberIsRefused(v, n);
    case NextFileNumber(v) => CutNumberIsRefused(v, n);
    case LastSequence(v) => CutNumberIsRefused(v, n);
    case CompactPointer(level, key) =>
      var k := LengthPrefixed(keys.Encode(key));
      CutOfTwo(Varint(level), k, n);
      if n < |Varint(level)| {
        CutNumberIsRefused(level, n);
      } else {
        M.LevelRoundTrip(level, k[..n - |Varint(level)|]);
        CutStringIsRefused(keys.Encode(key), n - |Varint(level)|);
      }
    case DeletedFile(level, v) =>
      CutOfTwo(Varint(level), Varint(v), n);
      if n < |Varint(level)| {
        CutNumberIsRefused(level, n);
      } else {
        M.LevelRoundTrip(level, Varint(v)[..n - |Varint(level)|]);
        CutNumberIsRefused(v, n - |Varint(level)|);
      }
    case NewFile(level, file) =>
      var b := Varint(file.number) + (Varint(file.size) +
                 (LengthPrefixed(keys.Encode(file.smallest)) + LengthPrefixed(keys.Encode(file.largest))));
      CutOfTwo(Varint(level), b, n);
      if n < |Varint(level)| {
        CutNumberIsRefused(level, n);
      } else {
        M.LevelRoundTrip(level, b[..n - |Varint(level)|]);
        CutFileIsRefused(file, n - |Varint(level)|, keys);
      }
  }

  /** An edit that ends within a field is refused. */
  lemma CutEditIsRefused(fields: seq<M.Field>, edit: M.Edit, f: M.Field, n: nat, keys: KeyCoding.Places)
    requires M.FieldsOk(fields, keys) && M.FieldOk(f, keys) && 0 < n < |M.EncodeField(f, keys)|
    ensures M.DecodeEdit(M.EncodeFields(fields, keys) + M.EncodeField(f, keys)[..n], edit, keys).Corrupt?
  {
    FieldParts(f, keys);
    hide M.EncodeField, M.FieldsOk, M.FieldOk, M.EncodeFields, M.AddFields, M.GetTagged, GetVarint32, Behind, TagOf;
    var bad, rest := M.EncodeField(f, keys)[..n], Behind(f, keys)[..n - 1];
    FieldsBeforeFault(fields, edit, bad, keys);
    assert Varint(TagOf(f)) == [TagOf(f)] by { SmallTag(f); }
    assert bad == Varint(TagOf(f)) + rest;
    Varint32RoundTrip(TagOf(f), rest);
    CutBehindTag(f, n - 1, keys);
  }

  lemma SmallTag(f: M.Field)
    ensures Varint(TagOf(f)) == [TagOf(f)]
  {
  }

  // Blocks of tables

  /** The block is as it was but for up to four neighbouring bytes of its contents and type. */
  ghost predicate BlockDamaged(file: Bytes, was: Bytes, h: T.Handle, i: nat, n: nat) {
    && |file| == |was| && n <= 4 && h.offset <= i && i + n <= h.offset + h.size + 1 && h.offset + h.size + 5 <= |file|
    && file[..i] == was[..i] && file[i + n..] == was[i + n..] && file != was
  }

  /** Such damage is always found when checksums are verified. */
  lemma DamagedBlockIsRefused(file: Bytes, was: Bytes, h: T.Handle, i: nat, n: nat, contents: Bytes)
    requires BlockDamaged(file, was, h, i, n) && T.ReadBlock(was, true, h) == T.Contents(contents)
    ensures T.ReadBlock(file, true, h) == T.Failed(T.ChecksumMismatch)
  {
    hide Crc32c.Value, T.ChecksumOk, T.ReadBlock, T.ReadAt;
    var from, end := h.offset, h.offset + h.size + 1;
    var b, d := T.ReadAt(was, from, h.size + 5), T.ReadAt(file, from, h.size + 5);
    LogDamage.OutsideIsSame(file, was, from, end, i, n);
    BlockBytes(was, h);
    BlockBytes(file, h);
    assert file[end..end + 4] == was[end..end + 4] by { BehindIsSame(file, was, end, i + n); }
    if T.ChecksumOk(d[h.size + 1..], d[..h.size + 1]) {
      SameChecksum(b[h.size + 1..], b[..h.size + 1], d[..h.size + 1]);
      LogDamage.BurstsAreFound(was[from..i], was[i..i + n], file[i..i + n], was[i + n..end]);
    }
  }

  lemma SameChecksum(stored: Bytes, a: Bytes, b: Bytes)
    requires |stored| == 4 && T.ChecksumOk(stored, a) && T.ChecksumOk(stored, b)
    ensures Crc32c.Value(a) == Crc32c.Value(b)
  {
    hide Crc32c.Value, DecodeFixed;
  }

  lemma BlockBytes(file: Bytes, h: T.Handle)
    requires h.offset + h.size + 5 <= |file|
    ensures var b, end := T.ReadAt(file, h.offset, h.size + 5), h.offset + h.size + 1;
            && |b| == h.size + 5 && b[..h.size + 1] == file[h.offset..end] && b[h.size + 1..] == file[end..end + 4]
            && (T.ReadBlock(file, true, h) == T.Failed(T.ChecksumMismatch)
                <==> !T.ChecksumOk(b[h.size + 1..], b[..h.size + 1]))
  {
    hide T.ChecksumOk;
  }

  lemma BehindIsSame(file: Bytes, was: Bytes, end: nat, from: nat)
    requires from <= end && end + 4 <= |file| == |was| && file[from..] == was[from..]
    ensures file[end..end + 4] == was[end..end + 4]
  {
    assert file[end..end + 4] == file[from..][end - from..end - from + 4];
  }
}
