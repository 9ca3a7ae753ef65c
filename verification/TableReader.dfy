/** Opening a table file and looking up a key in it, from its bytes (table/table.cc). */
module TableReaders {
  import opened Wrappers
  import opened InternalKeys
  import opened Coding
  import opened Comparators
  import opened Blocks
  import opened BlockIterator
  import opened TableFormat
  import opened Tables
  import Bloom
  import FilterBlocks

  // Opening

  datatype OpenError = FileTooShort | BadFooter | IndexUnreadable(error: ReadError)

  datatype OpenResult = Opened(footer: Footer, indexContents: Bytes) | OpenFailed(error: OpenError)

  /** The first part of Table::Open: the footer, and the index block it leads to. */
  function OpenFile(file: Bytes, paranoid: bool): OpenResult {
    if |file| < FOOTER_LENGTH then OpenFailed(FileTooShort)
    else
      match DecodeFooter(file[|file| - FOOTER_LENGTH..])
      case None => OpenFailed(BadFooter)
      case Some(footer) =>
        match ReadBlock(file, paranoid, footer.index)
        case Failed(error) => OpenFailed(IndexUnreadable(error))
        case Contents(contents) => Opened(footer, contents)
  }

  lemma HandleFits(file: Bytes, h: Handle, contents: Bytes)
    requires Holds(file, h, contents) && |file| < TWO_64
    ensures InWords(h)
  {
  }

  /** A finished file opens, and its index is found. */
  lemma FinishedFileOpens(file: Bytes, t: Table, m: FileMap, name: Bytes, paranoid: bool)
    requires IsFileOf(file, t, m, name) && FileFits(file, t, m)
    ensures OpenFile(file, paranoid) == Opened(Footer(m.metaindex, m.index), m.indexContents)
  {
    hide BlocksStored, Contains, EncodeFooter, DecodeFooter, ReadBlock, Stored;
    HandleFits(file, m.metaindex, m.metaContents);
    HandleFits(file, m.index, m.indexContents);
    FooterRoundTrip(m.metaindex, m.index);
    StoredIsRead(file, paranoid, m.index, m.indexContents);
  }

  /** An iterator over the contents of a block. */
  method NewIterator(contents: Bytes, before: Order, ghost entries: seq<KV>) returns (it: Iter)
    requires Contains(contents, entries)
    ensures fresh(it) && it.Ready() && it.before == before && it.contents == contents && it.lay.entries == entries
  {
    ghost var data, points, lay :| IsBlock(contents, data, points, lay) && lay.entries == entries;
    it := new Iter(contents, before, data, points, lay);
  }

  lemma LessOrders()
    ensures Transitive(Less)
  {
    forall a, b, c | Less(a, b) && Less(b, c)
      ensures Less(a, c)
    {
      LessIsTransitive(a, b, c);
    }
  }

  /** ReadMeta: the filter, if the table was built with the policy it is opened with. */
  method ReadMeta(file: Bytes, footer: Footer, policy: Option<Bytes>, paranoid: bool,
                  ghost t: Table, ghost m: FileMap, ghost name: Bytes)
    returns (filter: Option<Bytes>)
    requires IsFileOf(file, t, m, name) && FileFits(file, t, m) && footer.metaindex == m.metaindex
    ensures filter == if policy == Some(name) then t.filter else None
  {
    if policy.None? {
      return None;
    }
    StoredIsRead(file, paranoid, m.metaindex, m.metaContents);
    hide BlocksStored, Contains, Holds, ReadBlock, Iter.Ready, Iter.At;
    ghost var entries := MetaEntries(name, m.filter);
    match ReadBlock(file, paranoid, footer.metaindex)
    case Failed(_) =>
      assert false;
    case Contents(contents) =>
      var it := NewIterator(contents, Less, entries);
      var key := FILTER_PREFIX + policy.value;
      LessOrders();
      ghost var i := it.Seek(key);
      it.ValidAt(i);
      FilterEntry(name, m.filter, policy.value, i);
      if it.Valid() {
        ReadEntry(it, i);
        if it.key == key {
          filter := ReadFilter(file, it.contents[it.valueStart..it.valueStart + it.valueLength], paranoid, t.filter, m.filter);
          return;
        }
      }
      filter := None;
  }

  /** The entry an iterator is at. */
  lemma ReadEntry(it: Iter, i: nat)
    requires it.Ready() && it.At(i) && i < |it.lay.entries|
    ensures it.key == it.lay.entries[i].key && it.valueStart + it.valueLength <= |it.contents|
    ensures it.contents[it.valueStart..it.valueStart + it.valueLength] == it.lay.entries[i].value
  {
  }

  /** A seek in the metaindex ends at the filter's entry exactly if the policies have the same name. */
  lemma FilterEntry(name: Bytes, h: Option<Handle>, policy: Bytes, i: nat)
    requires IsFirstAtOrAfter(MetaEntries(name, h), Less, FILTER_PREFIX + policy, i)
    ensures policy == name && h.Some? ==> i == 0
    ensures i < |MetaEntries(name, h)| ==> i == 0 && (MetaEntries(name, h)[0].key == FILTER_PREFIX + policy <==> policy == name)
  {
    LessIsTotal(FILTER_PREFIX + policy, FILTER_PREFIX + policy);
    var entries := MetaEntries(name, h);
    if h.Some? && policy == name { assert !Less(entries[0].key, FILTER_PREFIX + policy); }
    if h.Some? && policy != name {
      assert (FILTER_PREFIX + policy)[|FILTER_PREFIX|..] == policy && (FILTER_PREFIX + name)[|FILTER_PREFIX|..] == name;
    }
  }

  /** ReadFilter; what cannot be read leaves the table without a filter. */
  method ReadFilter(file: Bytes, handleValue: Bytes, paranoid: bool, ghost stored: Option<Bytes>, ghost h: Option<Handle>)
    returns (filter: Option<Bytes>)
    requires FilterStored(file, h, stored) && h.Some? && |stored.value| < TWO_32 && |file| < TWO_64
    requires handleValue == EncodeHandle(h.value)
    ensures filter == stored
  {
    HandleFits(file, h.value, stored.value);
    HandleRoundTrip(h.value, []);
    assert handleValue + [] == handleValue;
    StoredIsRead(file, paranoid, h.value, stored.value);
    match DecodeHandle(handleValue)
    case None => filter := None;
    case Some(handle) =>
      match ReadBlock(file, paranoid, handle.value)
      case Failed(_) => filter := None;
      case Contents(contents) => filter := Some(contents);
  }

  // Looking up

  lemma RowsAreRead(rows: seq<Row>)
    requires Increasing(rows)
    ensures KeysIncrease(RowEntries(rows), BytesBefore)
  {
    forall i, j | 0 <= i < j < |rows|
      ensures BytesBefore(RowEntries(rows)[i].key, RowEntries(rows)[j].key)
    {
      KeyIsRead(rows[i].key);
      KeyIsRead(rows[j].key);
    }
  }

  lemma IndexIsRead(t: Table, hash: Bloom.Hash, handles: seq<Handle>)
    requires TableOk(t, hash) && |t.index| <= |handles|
    ensures KeysIncrease(IndexEntries(t.index, handles), BytesBefore)
  {
    forall i, j | 0 <= i < j < |t.index|
      ensures BytesBefore(IndexEntries(t.index, handles)[i].key, IndexEntries(t.index, handles)[j].key)
    {
      KeyIsRead(t.index[i].key);
      KeyIsRead(t.index[j].key);
      IndexIncreases(t, hash, i, j);
    }
  }

  /** A seek in the bytes of a data block is a seek among its rows. */
  lemma RowSought(rows: seq<Row>, k: IKey, i: nat)
    requires IsFirstAtOrAfter(RowEntries(rows), BytesBefore, KeyBytes(k), i)
    ensures IsFirst(rows, k, i)
  {
    KeyIsRead(k);
    forall j | 0 <= j < |rows|
      ensures j < i ==> Comparators.Before(rows[j].key, k)
      ensures j == i ==> !Comparators.Before(rows[j].key, k)
    {
      KeyIsRead(rows[j].key);
      assert BytesBefore(RowEntries(rows)[j].key, KeyBytes(k)) <==> Comparators.Before(rows[j].key, k);
    }
  }

  lemma IndexSought(index: seq<IndexEntry>, handles: seq<Handle>, k: IKey, i: nat)
    requires |index| <= |handles| && IsFirstAtOrAfter(IndexEntries(index, handles), BytesBefore, KeyBytes(k), i)
    ensures i <= |index| && (forall j :: 0 <= j < i ==> Comparators.Before(index[j].key, k))
    ensures i < |index| ==> !Comparators.Before(index[i].key, k)
  {
    KeyIsRead(k);
    forall j | 0 <= j < |index|
      ensures j < i ==> Comparators.Before(index[j].key, k)
      ensures j == i ==> !Comparators.Before(index[j].key, k)
    {
      KeyIsRead(index[j].key);
      assert BytesBefore(IndexEntries(index, handles)[j].key, KeyBytes(k)) <==> Comparators.Before(index[j].key, k);
    }
  }

  /** What the filter does not match is not in the block. */
  lemma UnmatchedIsAbsent(t: Table, hash: Bloom.Hash, k: IKey, i: nat)
    requires TableOk(t, hash) && t.filter.Some? && i < |t.blocks|
    requires !FilterBlocks.MustMatch(hash, t.filter.value, t.blocks[i].offset, k.user)
    ensures Answers(t.blocks[i].rows, k, NotFound)
  {
    hide FilterBlocks.MustMatch;
    forall r | r in t.blocks[i].rows
      ensures r.key.user != k.user
    {
      assert t.blocks[i] in t.blocks;
    }
  }

  /** An open table: its file, the contents of its index block, and its filter if it has one. */
  class OpenTable {
    const file: Bytes
    const indexContents: Bytes
    const filter: Option<Bytes>
    ghost const table: Table
    ghost const places: FileMap
    ghost const name: Bytes

    constructor (file: Bytes, indexContents: Bytes, filter: Option<Bytes>, ghost t: Table, ghost m: FileMap, ghost name: Bytes)
      ensures this.file == file && this.indexContents == indexContents && this.filter == filter
      ensures table == t && places == m && this.name == name
    {
      this.file, this.indexContents, this.filter := file, indexContents, filter;
      table, places, this.name := t, m, name;
    }

    ghost predicate Ok() {
      && IsFileOf(file, table, places, name) && FileFits(file, table, places)
      && indexContents == places.indexContents && (filter.Some? ==> filter == table.filter)
    }

    lemma HandleIsRead(i: nat)
      requires Ok() && i < |table.blocks|
      ensures BlockStored(file, places.handles[i], places.contents[i], table.blocks[i]) && |places.contents[i]| < TWO_32
      ensures DecodeHandle(EncodeHandle(places.handles[i])) == Some(Parsed(places.handles[i], []))
    {
      hide Contains, Stored, EncodeFooter, RowEntries, IndexEntries, EncodeHandle, DecodeHandle;
      var h, contents := places.handles[i], places.contents[i];
      assert BlockStored(file, h, contents, table.blocks[i]) && contents in places.contents;
      HandleFits(file, h, contents);
      HandleRoundTrip(h, []);
      assert EncodeHandle(h) + [] == EncodeHandle(h);
    }

    /** BlockReader: an iterator over the block an index entry leads to. */
    method BlockReader(indexValue: Bytes, verifyChecksums: bool, ghost i: nat) returns (it: Iter?)
      requires Ok() && i < |table.blocks| && indexValue == EncodeHandle(places.handles[i])
      ensures it != null && fresh(it) && it.Ready() && it.before == BytesBefore
      ensures it.lay.entries == RowEntries(table.blocks[i].rows)
    {
      HandleIsRead(i);
      hide IsFileOf, FileFits, Contains, Stored, EncodeHandle, DecodeHandle, ReadBlock;
      StoredIsRead(file, verifyChecksums, places.handles[i], places.contents[i]);
      it := null;
      match DecodeHandle(indexValue)
      case None =>
      case Some(handle) =>
        match ReadBlock(file, verifyChecksums, handle.value)
        case Failed(_) =>
        case Contents(data) => it := NewIterator(data, BytesBefore, RowEntries(table.blocks[i].rows));
    }

    /** Table::InternalGet: a seek in the index block, the filter, and a seek in one data block. */
    method InternalGet(hash: Bloom.Hash, k: IKey, verifyChecksums: bool) returns (s: Saver)
      requires Ok() && TableOk(table, hash)
      ensures Answers(AllRows(table.blocks), k, s)
    {
      IndexIsRead(table, hash, places.handles);
      BytesBeforeIsTransitive();
      hide TableOk, IsFileOf, FileFits, Contains, KeysIncrease, Transitive, Iter.Ready, Iter.At, Answers;
      hide Tables.BytesBefore, KeyBytes;
      var iiter := NewIterator(indexContents, BytesBefore, IndexEntries(table.index, places.handles));
      ghost var i := iiter.Seek(KeyBytes(k));
      iiter.ValidAt(i);
      IndexSought(table.index, places.handles, k, i);
      if !iiter.Valid() {
        NoBlockAnswers(table, hash, k);
        return NotFound;
      }
      ReadEntry(iiter, i);
      var handleValue := iiter.contents[iiter.valueStart..iiter.valueStart + iiter.valueLength];
      var excluded := Excluded(hash, k, handleValue, i);
      if excluded {
        BlockAnswers(table, hash, k, i, NotFound);
        return NotFound;
      }
      var it := BlockReader(handleValue, verifyChecksums, i);
      s := Find(it, hash, k, i);
      BlockAnswers(table, hash, k, i, s);
    }

    /** The filter says that the block has no row for the key. */
    method Excluded(hash: Bloom.Hash, k: IKey, handleValue: Bytes, ghost i: nat) returns (excluded: bool)
      requires Ok() && TableOk(table, hash) && i < |table.blocks| && handleValue == EncodeHandle(places.handles[i])
      ensures excluded ==> Answers(table.blocks[i].rows, k, NotFound)
    {
      if filter.None? {
        return false;
      }
      HandleIsRead(i);
      hide IsFileOf, FileFits, EncodeHandle, DecodeHandle, Contains, TableOk, FilterBlocks.MustMatch, Answers, Stored;
      match DecodeHandle(handleValue)
      case None => excluded := false;
      case Some(handle) =>
        var may := FilterBlocks.KeyMayMatch(hash, filter.value, handle.value.offset, k.user);
        excluded := !may;
        if excluded { UnmatchedIsAbsent(table, hash, k, i); }
    }

    /** The first row of a block at or after the key, given to SaveValue. */
    method Find(it: Iter, hash: Bloom.Hash, k: IKey, ghost i: nat) returns (s: Saver)
      requires TableOk(table, hash) && i < |table.blocks| && it.Ready() && it.before == BytesBefore
      requires it.lay.entries == RowEntries(table.blocks[i].rows)
      modifies it
      ensures Answers(table.blocks[i].rows, k, s)
    {
      ghost var rows := table.blocks[i].rows;
      BlockIncreases(table.blocks, i);
      RowsAreRead(rows);
      BytesBeforeIsTransitive();
      hide TableOk, KeysIncrease, Transitive, Iter.Ready, Iter.At, Tables.BytesBefore, KeyBytes;
      ghost var j := it.Seek(KeyBytes(k));
      it.ValidAt(j);
      RowSought(rows, k, j);
      FirstAnswers(rows, k, j);
      if it.Valid() {
        ReadEntry(it, j);
        KeyIsRead(rows[j].key);
        var value := it.contents[it.valueStart..it.valueStart + it.valueLength];
        s := Saved(Some(Row(KeyOf(it.key), value)), k.user);
        assert Row(KeyOf(it.key), value) == rows[j];
      } else {
        s := NotFound;
      }
    }
  }

  /** Table::Open.  It succeeds on a finished file. */
  method Open(file: Bytes, policy: Option<Bytes>, paranoid: bool, ghost t: Table, ghost m: FileMap, ghost name: Bytes)
    returns (table: OpenTable?)
    requires IsFileOf(file, t, m, name) && FileFits(file, t, m)
    ensures table != null && fresh(table) && table.Ok() && table.table == t
    ensures table.filter == if policy == Some(name) then t.filter else None
  {
    FinishedFileOpens(file, t, m, name, paranoid);
    hide IsFileOf, FileFits;
    match OpenFile(file, paranoid)
    case OpenFailed(_) => table := null;
    case Opened(footer, indexContents) =>
      var filter := ReadMeta(file, footer, policy, paranoid, t, m, name);
      table := new OpenTable(file, indexContents, filter, t, m, name);
  }
}
