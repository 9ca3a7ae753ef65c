/** The encoded form of version edits, as the manifest holds them (db/version_edit.cc). */
module ManifestCodec {
  import opened Wrappers
  import opened InternalKeys
  import opened Files
  import opened Coding
  import opened KeyCoding
  import V = Versions

  /** The files a manifest names; their contents are elsewhere. */
  type FileMetaData = File<()>
  type Edit = V.VersionEdit<()>

  const EMPTY: Edit := V.VersionEdit(None, None, None, None, None, [], [], [])

  const COMPARATOR: U32 := 1
  const LOG_NUMBER: U32 := 2
  const NEXT_FILE_NUMBER: U32 := 3
  const LAST_SEQUENCE: U32 := 4
  const COMPACT_POINTER: U32 := 5
  const DELETED_FILE: U32 := 6
  const NEW_FILE: U32 := 7
  const PREV_LOG_NUMBER: U32 := 9

  datatype EditError =
    | BadComparator | BadLogNumber | BadPrevLogNumber | BadNextFileNumber | BadLastSequence
    | BadCompactPointer | BadDeletedFile | BadNewFile | UnknownTag | InvalidTag

  datatype Result = Good(edit: Edit) | Corrupt(error: EditError)

  /** A key of the user's that can be stored: its bytes stand at its place, and their length fits 32 bits. */
  ghost predicate Keeps(k: InternalKey, keys: Places) {
    keys.Has(k.user) && k.seqno <= MAX_SEQUENCE && |keys.bytes(k.user)| + TAG_LENGTH < TWO_32
  }

  /** One tagged field of an encoded edit. */
  datatype Field =
    | Comparator(name: Bytes)
    | LogNumber(n: nat)
    | PrevLogNumber(n: nat)
    | NextFileNumber(n: nat)
    | LastSequence(n: nat)
    | CompactPointer(level: nat, key: InternalKey)
    | DeletedFile(level: nat, n: nat)
    | NewFile(level: nat, file: FileMetaData)

  ghost predicate FieldOk(f: Field, keys: Places) {
    match f
    case Comparator(name) => |name| < TWO_32
    case LogNumber(n) => n < TWO_64
    case PrevLogNumber(n) => n < TWO_64
    case NextFileNumber(n) => n < TWO_64
    case LastSequence(n) => n < TWO_64
    case CompactPointer(level, key) => level < V.NUM_LEVELS && Keeps(key, keys)
    case DeletedFile(level, n) => level < V.NUM_LEVELS && n < TWO_64
    case NewFile(level, file) =>
      && level < V.NUM_LEVELS && file.number < TWO_64 && file.size < TWO_64
      && Keeps(file.smallest, keys) && Keeps(file.largest, keys)
  }

  function EncodeField(f: Field, keys: Places): Bytes
    requires FieldOk(f, keys)
  {
    match f
    case Comparator(name) => Varint(COMPARATOR) + LengthPrefixed(name)
    case LogNumber(n) => Varint(LOG_NUMBER) + Varint(n)
    case PrevLogNumber(n) => Varint(PREV_LOG_NUMBER) + Varint(n)
    case NextFileNumber(n) => Varint(NEXT_FILE_NUMBER) + Varint(n)
    case LastSequence(n) => Varint(LAST_SEQUENCE) + Varint(n)
    case CompactPointer(level, key) => Varint(COMPACT_POINTER) + (Varint(level) + LengthPrefixed(keys.Encode(key)))
    case DeletedFile(level, n) => Varint(DELETED_FILE) + (Varint(level) + Varint(n))
    case NewFile(level, f) =>
      Varint(NEW_FILE) + (Varint(level) + (Varint(f.number) + (Varint(f.size) +
        (LengthPrefixed(keys.Encode(f.smallest)) + LengthPrefixed(keys.Encode(f.largest))))))
  }

  function GetLevel(b: Bytes): Option<Parsed<nat>> {
    match GetVarint32(b)
    case None => None
    case Some(p) => if p.value < V.NUM_LEVELS then Some(Parsed(p.value, p.rest)) else None
  }

  function GetKey(b: Bytes, keys: Places): Option<Parsed<InternalKey>> {
    match GetLengthPrefixed(b)
    case None => None
    case Some(p) => Some(Parsed(keys.Decode(p.value), p.rest))
  }

  function GetFile(b: Bytes, keys: Places): Option<Parsed<FileMetaData>> {
    match GetVarint64(b)
    case None => None
    case Some(number) =>
      match GetVarint64(number.rest)
      case None => None
      case Some(size) =>
        match GetKey(size.rest, keys)
        case None => None
        case Some(smallest) =>
          match GetKey(smallest.rest, keys)
          case None => None
          case Some(largest) =>
            Some(Parsed(File(number.value, size.value, smallest.value, largest.value, ()), largest.rest))
  }

  datatype Got = Got(field: Field, rest: Bytes) | Bad(error: EditError)

  function GotNumber(p: Option<Parsed<U64>>, make: nat -> Field, error: EditError): Got {
    if p.Some? then Got(make(p.value.value), p.value.rest) else Bad(error)
  }

  /** The field behind a tag. */
  function GetTagged(tag: U32, b: Bytes, keys: Places): Got {
    if tag == COMPARATOR then
      match GetLengthPrefixed(b)
      case None => Bad(BadComparator)
      case Some(p) => Got(Comparator(p.value), p.rest)
    else if tag == LOG_NUMBER then GotNumber(GetVarint64(b), (n: nat) => LogNumber(n), BadLogNumber)
    else if tag == PREV_LOG_NUMBER then GotNumber(GetVarint64(b), (n: nat) => PrevLogNumber(n), BadPrevLogNumber)
    else if tag == NEXT_FILE_NUMBER then GotNumber(GetVarint64(b), (n: nat) => NextFileNumber(n), BadNextFileNumber)
    else if tag == LAST_SEQUENCE then GotNumber(GetVarint64(b), (n: nat) => LastSequence(n), BadLastSequence)
    else if tag == COMPACT_POINTER then
      match GetLevel(b)
      case None => Bad(BadCompactPointer)
      case Some(level) =>
        (match GetKey(level.rest, keys)
         case None => Bad(BadCompactPointer)
         case Some(key) => Got(CompactPointer(level.value, key.value), key.rest))
    else if tag == DELETED_FILE then
      match GetLevel(b)
      case None => Bad(BadDeletedFile)
      case Some(level) => GotNumber(GetVarint64(level.rest), (n: nat) => DeletedFile(level.value, n), BadDeletedFile)
    else if tag == NEW_FILE then
      match GetLevel(b)
      case None => Bad(BadNewFile)
      case Some(level) =>
        (match GetFile(level.rest, keys)
         case None => Bad(BadNewFile)
         case Some(f) => Got(NewFile(level.value, f.value), f.rest))
    else Bad(UnknownTag)
  }

  function GetField(b: Bytes, keys: Places): Got {
    match GetVarint32(b)
    case None => Bad(InvalidTag)
    case Some(tag) => GetTagged(tag.value, tag.rest, keys)
  }

  /** What a field adds to an edit. */
  function AddField(edit: Edit, f: Field): Edit {
    match f
    case Comparator(name) => edit.(comparator := Some(name))
    case LogNumber(n) => edit.(logNumber := Some(n))
    case PrevLogNumber(n) => edit.(prevLogNumber := Some(n))
    case NextFileNumber(n) => edit.(nextFileNumber := Some(n))
    case LastSequence(n) => edit.(lastSequence := Some(n))
    case CompactPointer(level, key) => edit.(compactPointers := edit.compactPointers + [(level, key)])
    case DeletedFile(level, n) => edit.(deletedFiles := V.InsertPair(edit.deletedFiles, (level, n)))
    case NewFile(level, f) => edit.(newFiles := edit.newFiles + [(level, f)])
  }

  lemma KeyRoundTrip(k: InternalKey, rest: Bytes, keys: Places)
    requires Keeps(k, keys)
    ensures GetKey(LengthPrefixed(keys.Encode(k)) + rest, keys) == Some(Parsed(k, rest))
  {
    InternalKeyRoundTrip(k, keys);
    LengthPrefixedRoundTrip(keys.Encode(k), rest);
  }

  lemma LevelRoundTrip(level: nat, rest: Bytes)
    requires level < V.NUM_LEVELS
    ensures GetLevel(Varint(level) + rest) == Some(Parsed(level, rest))
  {
    Varint32RoundTrip(level, rest);
  }

  lemma Assoc(a: Bytes, b: Bytes, c: Bytes)
    ensures (a + b) + c == a + (b + c)
  {
  }

  lemma FileRoundTrip(f: FileMetaData, rest: Bytes, keys: Places)
    requires f.number < TWO_64 && f.size < TWO_64 && Keeps(f.smallest, keys) && Keeps(f.largest, keys)
    ensures GetFile(Varint(f.number) + (Varint(f.size) + (LengthPrefixed(keys.Encode(f.smallest)) +
                      (LengthPrefixed(keys.Encode(f.largest)) + rest))), keys) == Some(Parsed(f, rest))
  {
    hide GetVarint64, GetKey, Varint, LengthPrefixed;
    var d := LengthPrefixed(keys.Encode(f.largest)) + rest;
    var c := LengthPrefixed(keys.Encode(f.smallest)) + d;
    var b := Varint(f.size) + c;
    assert f.contents == ();
    Varint64RoundTrip(f.number, b);
    Varint64RoundTrip(f.size, c);
    KeyRoundTrip(f.smallest, d, keys);
    KeyRoundTrip(f.largest, rest, keys);
  }

  /** A field is read back, whatever follows it. */
  lemma FieldRoundTrip(f: Field, rest: Bytes, keys: Places)
    requires FieldOk(f, keys)
    ensures GetField(EncodeField(f, keys) + rest, keys) == Got(f, rest)
  {
    hide GetVarint64, GetVarint32, GetKey, GetFile, GetLevel, Varint, LengthPrefixed, GetLengthPrefixed;
    match f
    case Comparator(name) =>
      Tagged(COMPARATOR, LengthPrefixed(name), rest, keys);
      LengthPrefixedRoundTrip(name, rest);
    case LogNumber(n) => Tagged(LOG_NUMBER, Varint(n), rest, keys); Varint64RoundTrip(n, rest);
    case PrevLogNumber(n) => Tagged(PREV_LOG_NUMBER, Varint(n), rest, keys); Varint64RoundTrip(n, rest);
    case NextFileNumber(n) => Tagged(NEXT_FILE_NUMBER, Varint(n), rest, keys); Varint64RoundTrip(n, rest);
    case LastSequence(n) => Tagged(LAST_SEQUENCE, Varint(n), rest, keys); Varint64RoundTrip(n, rest);
    case CompactPointer(level, key) =>
      var k := LengthPrefixed(keys.Encode(key));
      Tagged(COMPACT_POINTER, Varint(level) + k, rest, keys);
      Assoc(Varint(level), k, rest);
      LevelRoundTrip(level, k + rest);
      KeyRoundTrip(key, rest, keys);
    case DeletedFile(level, n) =>
      Tagged(DELETED_FILE, Varint(level) + Varint(n), rest, keys);
      Assoc(Varint(level), Varint(n), rest);
      LevelRoundTrip(level, Varint(n) + rest);
      Varint64RoundTrip(n, rest);
    case NewFile(level, file) => NewFileRoundTrip(level, file, rest, keys);
  }

  lemma NewFileRoundTrip(level: nat, f: FileMetaData, rest: Bytes, keys: Places)
    requires FieldOk(NewFile(level, f), keys)
    ensures GetField(EncodeField(NewFile(level, f), keys) + rest, keys) == Got(NewFile(level, f), rest)
  {
    hide GetVarint64, GetVarint32, GetKey, GetFile, GetLevel, Varint, LengthPrefixed;
    var d := LengthPrefixed(keys.Encode(f.largest));
    var c := LengthPrefixed(keys.Encode(f.smallest));
    Tagged(NEW_FILE, Varint(level) + (Varint(f.number) + (Varint(f.size) + (c + d))), rest, keys);
    Assoc(Varint(level), Varint(f.number) + (Varint(f.size) + (c + d)), rest);
    Assoc(Varint(f.number), Varint(f.size) + (c + d), rest);
    Assoc(Varint(f.size), c + d, rest);
    Assoc(c, d, rest);
    LevelRoundTrip(level, Varint(f.number) + (Varint(f.size) + (c + (d + rest))));
    FileRoundTrip(f, rest, keys);
  }

  lemma Tagged(tag: U32, data: Bytes, rest: Bytes, keys: Places)
    ensures GetField(Varint(tag) + data + rest, keys) == GetTagged(tag, data + rest, keys)
  {
    hide GetTagged, GetVarint32, Varint;
    Assoc(Varint(tag), data, rest);
    Varint32RoundTrip(tag, data + rest);
  }

  lemma PrefixedConsumes(b: Bytes, keys: Places)
    ensures GetLengthPrefixed(b).Some? ==> |GetLengthPrefixed(b).value.rest| < |b|
    ensures GetKey(b, keys).Some? ==> |GetKey(b, keys).value.rest| < |b|
  {
    DecodeVarintConsumes(b, 5);
  }

  lemma VarintsConsume(b: Bytes)
    ensures GetVarint32(b).Some? ==> |GetVarint32(b).value.rest| < |b|
    ensures GetVarint64(b).Some? ==> |GetVarint64(b).value.rest| < |b|
    ensures GetLevel(b).Some? ==> |GetLevel(b).value.rest| < |b|
  {
    DecodeVarintConsumes(b, 5);
    DecodeVarintConsumes(b, 10);
  }

  lemma FileConsumes(b: Bytes, keys: Places)
    ensures GetFile(b, keys).Some? ==> |GetFile(b, keys).value.rest| < |b|
  {
    hide GetVarint64, GetKey;
    VarintsConsume(b);
    match GetVarint64(b)
    case None =>
    case Some(number) =>
      VarintsConsume(number.rest);
      match GetVarint64(number.rest)
      case None =>
      case Some(size) =>
        PrefixedConsumes(size.rest, keys);
        match GetKey(size.rest, keys)
        case None =>
        case Some(smallest) => PrefixedConsumes(smallest.rest, keys);
  }

  lemma FieldConsumes(b: Bytes, keys: Places)
    ensures GetField(b, keys).Got? ==> |GetField(b, keys).rest| < |b|
  {
    hide GetVarint32, GetTagged;
    VarintsConsume(b);
    match GetVarint32(b)
    case None =>
    case Some(tag) => TaggedConsumes(tag.value, tag.rest, keys);
  }

  lemma TaggedConsumes(tag: U32, b: Bytes, keys: Places)
    ensures GetTagged(tag, b, keys).Got? ==> |GetTagged(tag, b, keys).rest| < |b|
  {
    hide GetVarint64, GetKey, GetFile, GetLevel, GetLengthPrefixed;
    VarintsConsume(b);
    PrefixedConsumes(b, keys);
    match GetLevel(b)
    case None =>
    case Some(level) =>
      VarintsConsume(level.rest);
      PrefixedConsumes(level.rest, keys);
      FileConsumes(level.rest, keys);
  }

  // Whole edits

  function DecodeEdit(b: Bytes, edit: Edit, keys: Places): Result
    decreases |b|
  {
    if b == [] then Good(edit)
    else
      FieldConsumes(b, keys);
      match GetField(b, keys)
      case Bad(error) => Corrupt(error)
      case Got(f, rest) => DecodeEdit(rest, AddField(edit, f), keys)
  }

  ghost predicate FieldsOk(fields: seq<Field>, keys: Places) {
    forall f :: f in fields ==> FieldOk(f, keys)
  }

  function EncodeFields(fields: seq<Field>, keys: Places): Bytes
    requires FieldsOk(fields, keys)
  {
    if fields == [] then [] else EncodeField(fields[0], keys) + EncodeFields(fields[1..], keys)
  }

  function AddFields(edit: Edit, fields: seq<Field>): Edit
    decreases |fields|
  {
    if fields == [] then edit else AddFields(AddField(edit, fields[0]), fields[1..])
  }

  lemma {:induction false} DecodesFields(fields: seq<Field>, edit: Edit, keys: Places)
    requires FieldsOk(fields, keys)
    ensures DecodeEdit(EncodeFields(fields, keys), edit, keys) == Good(AddFields(edit, fields))
    decreases |fields|
  {
    hide EncodeField, GetField, FieldOk;
    if fields != [] {
      var rest := EncodeFields(fields[1..], keys);
      FieldRoundTrip(fields[0], rest, keys);
      EncodedIsLong(fields[0], keys);
      DecodesFields(fields[1..], AddField(edit, fields[0]), keys);
    }
  }

  lemma EncodedIsLong(f: Field, keys: Places)
    requires FieldOk(f, keys)
    ensures EncodeField(f, keys) != []
  {
  }

  lemma {:induction false} AddFieldsJoins(edit: Edit, a: seq<Field>, b: seq<Field>)
    ensures AddFields(edit, a + b) == AddFields(AddFields(edit, a), b)
    decreases |a|
  {
    if a == [] {
      assert a + b == b;
    } else {
      assert (a + b)[1..] == a[1..] + b;
      AddFieldsJoins(AddField(edit, a[0]), a[1..], b);
    }
  }

  lemma {:induction false} EncodeFieldsJoins(a: seq<Field>, b: seq<Field>, keys: Places)
    requires FieldsOk(a, keys) && FieldsOk(b, keys)
    ensures FieldsOk(a + b, keys) && EncodeFields(a + b, keys) == EncodeFields(a, keys) + EncodeFields(b, keys)
    decreases |a|
  {
    hide EncodeField, FieldOk;
    if a == [] {
      assert a + b == b;
    } else {
      assert (a + b)[1..] == a[1..] + b;
      EncodeFieldsJoins(a[1..], b, keys);
      Assoc(EncodeField(a[0], keys), EncodeFields(a[1..], keys), EncodeFields(b, keys));
    }
  }

  function Single<T>(o: Option<T>, make: T -> Field): seq<Field> {
    if o.Some? then [make(o.value)] else []
  }

  function PointerFields(pointers: seq<(nat, InternalKey)>): seq<Field> {
    seq(|pointers|, i requires 0 <= i < |pointers| => CompactPointer(pointers[i].0, pointers[i].1))
  }

  function DeletedFields(deleted: seq<(nat, nat)>): seq<Field> {
    seq(|deleted|, i requires 0 <= i < |deleted| => DeletedFile(deleted[i].0, deleted[i].1))
  }

  function NewFields(files: seq<(nat, FileMetaData)>): seq<Field> {
    seq(|files|, i requires 0 <= i < |files| => NewFile(files[i].0, files[i].1))
  }

  function ScalarFields(edit: Edit): seq<Field> {
    Single(edit.comparator, name => Comparator(name))
    + Single(edit.logNumber, (n: nat) => LogNumber(n))
    + Single(edit.prevLogNumber, (n: nat) => PrevLogNumber(n))
    + Single(edit.nextFileNumber, (n: nat) => NextFileNumber(n))
    + Single(edit.lastSequence, (n: nat) => LastSequence(n))
  }

  /** The fields of an edit in the order they are written. */
  function Fields(edit: Edit): seq<Field> {
    ScalarFields(edit) + PointerFields(edit.compactPointers) + DeletedFields(edit.deletedFiles) + NewFields(edit.newFiles)
  }

  /** A std::set of pairs, listed in order. */
  ghost predicate InOrder(pairs: seq<(nat, nat)>) {
    forall i, j :: 0 <= i < j < |pairs| ==> V.PairLess(pairs[i], pairs[j])
  }

  lemma {:induction false} InsertLast(pairs: seq<(nat, nat)>, p: (nat, nat))
    requires forall q :: q in pairs ==> V.PairLess(q, p)
    ensures V.InsertPair(pairs, p) == pairs + [p]
  {
    if pairs != [] {
      assert pairs[0] in pairs;
      assert forall q :: q in pairs[1..] ==> q in pairs;
      InsertLast(pairs[1..], p);
    }
  }

  lemma {:induction false} PointersAdded(edit: Edit, pointers: seq<(nat, InternalKey)>)
    ensures AddFields(edit, PointerFields(pointers)) == edit.(compactPointers := edit.compactPointers + pointers)
  {
    if pointers == [] {
      assert edit.compactPointers + pointers == edit.compactPointers;
    } else {
      var front, last := pointers[..|pointers| - 1], pointers[|pointers| - 1];
      PointersAdded(edit, front);
      assert PointerFields(pointers) == PointerFields(front) + [CompactPointer(last.0, last.1)];
      AddFieldsJoins(edit, PointerFields(front), [CompactPointer(last.0, last.1)]);
      assert edit.compactPointers + front + [last] == edit.compactPointers + pointers;
    }
  }

  lemma {:induction false} NewFilesAdded(edit: Edit, files: seq<(nat, FileMetaData)>)
    ensures AddFields(edit, NewFields(files)) == edit.(newFiles := edit.newFiles + files)
  {
    if files == [] {
      assert edit.newFiles + files == edit.newFiles;
    } else {
      var front, last := files[..|files| - 1], files[|files| - 1];
      NewFilesAdded(edit, front);
      assert NewFields(files) == NewFields(front) + [NewFile(last.0, last.1)];
      AddFieldsJoins(edit, NewFields(front), [NewFile(last.0, last.1)]);
      assert edit.newFiles + front + [last] == edit.newFiles + files;
    }
  }

  lemma {:induction false} DeletedAdded(edit: Edit, deleted: seq<(nat, nat)>)
    requires edit.deletedFiles == [] && InOrder(deleted)
    ensures AddFields(edit, DeletedFields(deleted)) == edit.(deletedFiles := deleted)
  {
    if deleted != [] {
      var front, last := deleted[..|deleted| - 1], deleted[|deleted| - 1];
      DeletedAdded(edit, front);
      assert DeletedFields(deleted) == DeletedFields(front) + [DeletedFile(last.0, last.1)];
      AddFieldsJoins(edit, DeletedFields(front), [DeletedFile(last.0, last.1)]);
      InsertLast(front, last);
      assert front + [last] == deleted;
    }
  }

  lemma ScalarsAdded(edit: Edit)
    ensures AddFields(EMPTY, ScalarFields(edit))
            == V.VersionEdit(edit.comparator, edit.logNumber, edit.prevLogNumber, edit.nextFileNumber, edit.lastSequence,
                             [], [], [])
  {
    var a := Single(edit.comparator, name => Comparator(name));
    var b := Single(edit.logNumber, (n: nat) => LogNumber(n));
    var c := Single(edit.prevLogNumber, (n: nat) => PrevLogNumber(n));
    var d := Single(edit.nextFileNumber, (n: nat) => NextFileNumber(n));
    var e := Single(edit.lastSequence, (n: nat) => LastSequence(n));
    hide AddFields, Single;
    AddFieldsJoins(EMPTY, a + b + c + d, e);
    AddFieldsJoins(EMPTY, a + b + c, d);
    AddFieldsJoins(EMPTY, a + b, c);
    AddFieldsJoins(EMPTY, a, b);
    SingleAdded(EMPTY, edit.comparator, name => Comparator(name));
    SingleAdded(AddFields(EMPTY, a), edit.logNumber, (n: nat) => LogNumber(n));
    SingleAdded(AddFields(EMPTY, a + b), edit.prevLogNumber, (n: nat) => PrevLogNumber(n));
    SingleAdded(AddFields(EMPTY, a + b + c), edit.nextFileNumber, (n: nat) => NextFileNumber(n));
    SingleAdded(AddFields(EMPTY, a + b + c + d), edit.lastSequence, (n: nat) => LastSequence(n));
  }

  lemma SingleAdded<T>(edit: Edit, o: Option<T>, make: T -> Field)
    ensures AddFields(edit, Single(o, make)) == if o.Some? then AddField(edit, make(o.value)) else edit
  {
    if o.Some? { assert [make(o.value)][1..] == []; }
  }

  /** What an edit must keep to for its encoding to be exact: numbers of 64 bits, known levels, keys that are kept. */
  ghost predicate Storable(edit: Edit, keys: Places) {
    InOrder(edit.deletedFiles) && FieldsOk(Fields(edit), keys)
  }

  /** Encoding an edit and decoding it gives the edit back. */
  lemma EditRoundTrip(edit: Edit, keys: Places)
    requires Storable(edit, keys)
    ensures DecodeEdit(EncodeFields(Fields(edit), keys), EMPTY, keys) == Good(edit)
  {
    hide FieldsOk, ScalarFields, PointerFields, DeletedFields, NewFields, AddFields, DecodeEdit;
    DecodesFields(Fields(edit), EMPTY, keys);
    var s, p, d, n := ScalarFields(edit), PointerFields(edit.compactPointers), DeletedFields(edit.deletedFiles),
      NewFields(edit.newFiles);
    AddFieldsJoins(EMPTY, s + p + d, n);
    AddFieldsJoins(EMPTY, s + p, d);
    AddFieldsJoins(EMPTY, s, p);
    ScalarsAdded(edit);
    var e1 := AddFields(EMPTY, s);
    PointersAdded(e1, edit.compactPointers);
    var e2 := AddFields(e1, p);
    DeletedAdded(e2, edit.deletedFiles);
    NewFilesAdded(AddFields(e2, d), edit.newFiles);
  }

  // The code

  /** Some of the fields of an edit are written. */
  ghost predicate Written(dst: Bytes, r: Bytes, done: seq<Field>, edit: Edit, keys: Places) {
    FieldsOk(done, keys) && done <= Fields(edit) && r == dst + EncodeFields(done, keys)
  }

  /** Appends the next field. */
  method Put(dst: Bytes, r0: Bytes, ghost done: seq<Field>, f: Field, edit: Edit, keys: Places) returns (r: Bytes)
    requires Written(dst, r0, done, edit, keys) && FieldOk(f, keys) && done + [f] <= Fields(edit)
    ensures Written(dst, r, done + [f], edit, keys)
  {
    r := r0 + EncodeField(f, keys);
    OneField(f, keys);
    EncodeFieldsJoins(done, [f], keys);
    Assoc(dst, EncodeFields(done, keys), EncodeField(f, keys));
  }

  lemma OneField(f: Field, keys: Places)
    requires FieldOk(f, keys)
    ensures FieldsOk([f], keys) && EncodeFields([f], keys) == EncodeField(f, keys)
  {
    assert [f][1..] == [];
  }

  /** Writes the fields one after the other, in the order of Fields. */
  method EncodeTo(dst: Bytes, edit: Edit, keys: Places) returns (r: Bytes)
    requires Storable(edit, keys)
    ensures r == dst + EncodeFields(Fields(edit), keys)
  {
    hide ScalarFields, PointerFields, DeletedFields, NewFields, FieldOk, EncodeField;
    ghost var s := ScalarFields(edit);
    ghost var p, d := PointerFields(edit.compactPointers), DeletedFields(edit.deletedFiles);
    r := EncodeScalars(dst, edit, keys);
    r := PutPointers(dst, r, s, edit, keys);
    r := PutDeletedFiles(dst, r, s + p, edit, keys);
    r := PutNewFiles(dst, r, s + p + d, edit, keys);
  }

  method PutPointers(dst: Bytes, r0: Bytes, ghost done: seq<Field>, edit: Edit, keys: Places) returns (r: Bytes)
    requires FieldsOk(Fields(edit), keys) && Written(dst, r0, done, edit, keys)
    requires done + PointerFields(edit.compactPointers) <= Fields(edit)
    ensures Written(dst, r, done + PointerFields(edit.compactPointers), edit, keys)
  {
    hide FieldOk, EncodeField, Fields, Written;
    r := r0;
    ghost var p := PointerFields(edit.compactPointers);
    assert done + p[..0] == done;
    for i := 0 to |edit.compactPointers|
      invariant Written(dst, r, done + p[..i], edit, keys)
    {
      NextField(edit, done, p, i, keys);
      r := Put(dst, r, done + p[..i], CompactPointer(edit.compactPointers[i].0, edit.compactPointers[i].1), edit, keys);
    }
    assert p[..|p|] == p;
  }

  method PutDeletedFiles(dst: Bytes, r0: Bytes, ghost done: seq<Field>, edit: Edit, keys: Places) returns (r: Bytes)
    requires FieldsOk(Fields(edit), keys) && Written(dst, r0, done, edit, keys)
    requires done + DeletedFields(edit.deletedFiles) <= Fields(edit)
    ensures Written(dst, r, done + DeletedFields(edit.deletedFiles), edit, keys)
  {
    hide FieldOk, EncodeField, Fields, Written;
    r := r0;
    ghost var d := DeletedFields(edit.deletedFiles);
    assert done + d[..0] == done;
    for i := 0 to |edit.deletedFiles|
      invariant Written(dst, r, done + d[..i], edit, keys)
    {
      NextField(edit, done, d, i, keys);
      r := Put(dst, r, done + d[..i], DeletedFile(edit.deletedFiles[i].0, edit.deletedFiles[i].1), edit, keys);
    }
    assert d[..|d|] == d;
  }

  method PutNewFiles(dst: Bytes, r0: Bytes, ghost done: seq<Field>, edit: Edit, keys: Places) returns (r: Bytes)
    requires FieldsOk(Fields(edit), keys) && Written(dst, r0, done, edit, keys)
    requires done + NewFields(edit.newFiles) <= Fields(edit)
    ensures Written(dst, r, done + NewFields(edit.newFiles), edit, keys)
  {
    hide FieldOk, EncodeField, Fields, Written;
    r := r0;
    ghost var n := NewFields(edit.newFiles);
    assert done + n[..0] == done;
    for i := 0 to |edit.newFiles|
      invariant Written(dst, r, done + n[..i], edit, keys)
    {
      NextField(edit, done, n, i, keys);
      r := Put(dst, r, done + n[..i], NewFile(edit.newFiles[i].0, edit.newFiles[i].1), edit, keys);
    }
    assert n[..|n|] == n;
  }

  lemma NextField(edit: Edit, done: seq<Field>, more: seq<Field>, i: nat, keys: Places)
    requires FieldsOk(Fields(edit), keys) && done + more <= Fields(edit) && i < |more|
    ensures FieldOk(more[i], keys) && done + more[..i] + [more[i]] == done + more[..i + 1] <= Fields(edit)
  {
    hide FieldOk, Fields;
    var j := |done| + i;
    assert (done + more)[j] == more[i] && Fields(edit)[j] == (done + more)[j];
  }

  method EncodeScalars(dst: Bytes, edit: Edit, keys: Places) returns (r: Bytes)
    requires Storable(edit, keys)
    ensures Written(dst, r, ScalarFields(edit), edit, keys)
  {
    hide Written, FieldOk, Single;
    ghost var a := Single(edit.comparator, name => Comparator(name));
    ghost var b := Single(edit.logNumber, (n: nat) => LogNumber(n));
    ghost var c := Single(edit.prevLogNumber, (n: nat) => PrevLogNumber(n));
    ghost var d := Single(edit.nextFileNumber, (n: nat) => NextFileNumber(n));
    NothingWritten(dst, edit, keys);
    assert [] + a == a;
    r := PutSingle(dst, dst, [], edit.comparator, name => Comparator(name), edit, keys);
    r := PutSingle(dst, r, a, edit.logNumber, (n: nat) => LogNumber(n), edit, keys);
    r := PutSingle(dst, r, a + b, edit.prevLogNumber, (n: nat) => PrevLogNumber(n), edit, keys);
    r := PutSingle(dst, r, a + b + c, edit.nextFileNumber, (n: nat) => NextFileNumber(n), edit, keys);
    r := PutSingle(dst, r, a + b + c + d, edit.lastSequence, (n: nat) => LastSequence(n), edit, keys);
  }

  lemma NothingWritten(dst: Bytes, edit: Edit, keys: Places)
    ensures Written(dst, dst, [], edit, keys)
  {
  }

  method PutSingle<T>(dst: Bytes, r0: Bytes, ghost done: seq<Field>, o: Option<T>, make: T -> Field, edit: Edit,
                      keys: Places)
    returns (r: Bytes)
    requires FieldsOk(Fields(edit), keys) && Written(dst, r0, done, edit, keys)
    requires done + Single(o, make) <= ScalarFields(edit)
    ensures Written(dst, r, done + Single(o, make), edit, keys)
  {
    hide FieldOk, EncodeField, ScalarFields, Written;
    r := r0;
    if o.Some? {
      NextField(edit, done, [make(o.value)], 0, keys);
      r := Put(dst, r0, done, make(o.value), edit, keys);
    } else {
      assert done + [] == done;
    }
  }

  method DecodeFrom(src: Bytes, keys: Places) returns (result: Result)
    ensures result == DecodeEdit(src, EMPTY, keys)
  {
    var edit, input := EMPTY, src;
    while input != []
      invariant DecodeEdit(src, EMPTY, keys) == DecodeEdit(input, edit, keys)
      decreases |input|
    {
      hide GetField, AddField;
      FieldConsumes(input, keys);
      match GetField(input, keys)
      case Bad(error) =>
        return Corrupt(error);
      case Got(f, rest) =>
        edit, input := AddField(edit, f), rest;
    }
    result := Good(edit);
  }
}
