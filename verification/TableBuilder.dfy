/** Building a table file (table/table_builder.cc). */
module TableBuilders {
  import opened Wrappers
  import opened InternalKeys
  import opened Coding
  import opened KeyCoding
  import opened Comparators
  import opened Blocks
  import opened TableFormat
  import opened Tables
  import Bloom
  import Crc32c
  import FilterBlocks

  /** The keys of a block are in its filter, or will be in the filter being made. */
  ghost predicate Filtered(groups: seq<seq<Bytes>>, keys: seq<Bytes>, b: DataBlock) {
    var g := b.offset / FilterBlocks.FILTER_BASE;
    g <= |groups| && forall r :: r in b.rows ==> r.key.user in if g < |groups| then groups[g] else keys
  }

  ghost predicate AllFiltered(groups: seq<seq<Bytes>>, keys: seq<Bytes>, blocks: seq<DataBlock>) {
    forall b :: b in blocks ==> Filtered(groups, keys, b)
  }

  /** The blocks written and the block being filled hold increasing rows. */
  ghost predicate Written(blocks: seq<DataBlock>, open: seq<Row>, offset: nat) {
    && Increasing(AllRows(blocks) + open) && (forall b :: b in blocks ==> b.rows != [] && b.offset < offset)
    && (forall i, j :: 0 <= i < j < |blocks| ==> blocks[i].offset < blocks[j].offset)
  }

  lemma BlockWritten(blocks: seq<DataBlock>, open: seq<Row>, offset: nat, size: nat)
    requires Written(blocks, open, offset) && open != []
    ensures Written(blocks + [DataBlock(offset, open)], [], offset + size + TRAILER)
    ensures AllRows(blocks + [DataBlock(offset, open)]) + [] == AllRows(blocks) + open
  {
    var all := blocks + [DataBlock(offset, open)];
    assert all[..|blocks|] == blocks;
    assert AllRows(all) + [] == AllRows(blocks) + open;
  }

  lemma IndexStays(index: seq<IndexEntry>, blocks: seq<DataBlock>, open: seq<Row>, offset: nat)
    requires IndexOk(index, blocks, open, |blocks|)
    ensures IndexOk(index, blocks + [DataBlock(offset, open)], [], |blocks|)
  {
    var all := blocks + [DataBlock(offset, open)];
    forall i | 0 <= i < |blocks|
      ensures Tables.EntryOk(index[i], all, [], i)
    {
      assert Tables.EntryOk(index[i], blocks, open, i);
    }
  }

  /** The index only looks at the first key of the block being filled. */
  lemma IndexLooksAtFirst(index: seq<IndexEntry>, blocks: seq<DataBlock>, open: seq<Row>, open2: seq<Row>, n: nat)
    requires IndexOk(index, blocks, open, n) && FirstKey(open) == FirstKey(open2)
    ensures IndexOk(index, blocks, open2, n)
  {
    forall i | 0 <= i < n
      ensures Tables.EntryOk(index[i], blocks, open2, i)
    {
      assert Tables.EntryOk(index[i], blocks, open, i);
    }
  }

  /** One more index entry, for the last block. */
  lemma IndexCompleted(index: seq<IndexEntry>, blocks: seq<DataBlock>, open: seq<Row>, e: IndexEntry)
    requires blocks != [] && IndexOk(index, blocks, [], |blocks| - 1) && Tables.EntryOk(e, blocks, open, |blocks| - 1)
    ensures IndexOk(index + [e], blocks, open, |blocks|)
  {
    var all := index + [e];
    forall i | 0 <= i < |blocks|
      ensures Tables.EntryOk(all[i], blocks, open, i)
    {
      if i < |index| { assert Tables.EntryOk(index[i], blocks, [], i); }
    }
  }

  lemma BlockFiltered(groups: seq<seq<Bytes>>, keys: seq<Bytes>, blocks: seq<DataBlock>, b: DataBlock)
    requires AllFiltered(groups, keys, blocks) && Filtered(groups, keys, b)
    ensures AllFiltered(groups, keys, blocks + [b])
  {
    hide Filtered;
  }

  /** Longer entries are refused: an entry and the index entry made from it must fit the lengths of a block. */
  const ENTRY_MAX: nat := TWO_32 - TAG_LENGTH - HANDLE_MAX

  /** Storing a row or an index entry in a block. */
  lemma RowAppended(rows: seq<Row>, r: Row)
    ensures RowEntries(rows + [r]) == RowEntries(rows) + [KV(KeyBytes(r.key), r.value)]
  {
  }

  lemma IndexAppended(index: seq<IndexEntry>, handles: seq<Handle>, e: IndexEntry)
    requires |index| < |handles|
    ensures IndexEntries(index + [e], handles)
            == IndexEntries(index, handles) + [KV(KeyBytes(e.key), EncodeHandle(handles[|index|]))]
  {
  }

  lemma IndexPrefix(index: seq<IndexEntry>, handles: seq<Handle>, h: Handle)
    requires |index| <= |handles|
    ensures IndexEntries(index, handles + [h]) == IndexEntries(index, handles)
  {
  }

  // What is appended to a file leaves what it holds as it is.

  lemma HeldOn(file: Bytes, longer: Bytes, h: Handle, contents: Bytes)
    requires Holds(file, h, contents) && file <= longer
    ensures Holds(longer, h, contents)
  {
    HoldsOn(file, longer[|file|..], h, contents);
    assert file + longer[|file|..] == longer;
  }

  lemma StoredOn(file: Bytes, longer: Bytes, h: Handle, contents: Bytes, entries: seq<KV>)
    requires StoredAs(file, h, contents, entries) && file <= longer
    ensures StoredAs(longer, h, contents, entries)
  {
    hide Contains, Holds;
    if |contents| < TWO_32 { HeldOn(file, longer, h, contents); }
  }

  lemma FilterStoredOn(file: Bytes, longer: Bytes, h: Option<Handle>, contents: Option<Bytes>)
    requires FilterStored(file, h, contents) && file <= longer
    ensures FilterStored(longer, h, contents)
  {
    hide Holds;
    if h.Some? && |contents.value| < TWO_32 { HeldOn(file, longer, h.value, contents.value); }
  }

  lemma BlocksStoredOn(file: Bytes, longer: Bytes, handles: seq<Handle>, contents: seq<Bytes>, blocks: seq<DataBlock>)
    requires BlocksStored(file, handles, contents, blocks) && file <= longer
    ensures BlocksStored(longer, handles, contents, blocks)
  {
    hide StoredAs, RowEntries;
    forall i | 0 <= i < |blocks|
      ensures BlockStored(longer, handles[i], contents[i], blocks[i])
    {
      assert BlockStored(file, handles[i], contents[i], blocks[i]);
      StoredOn(file, longer, handles[i], contents[i], RowEntries(blocks[i].rows));
    }
  }

  lemma StoredIsHeld(file: Bytes, contents: Bytes)
    ensures |contents| < TWO_32 ==> Holds(file + Stored(contents), Handle(|file|, |contents| % TWO_64), contents)
  {
    hide Stored;
    assert (file + Stored(contents))[|file|..|file| + |contents| + TRAILER] == Stored(contents);
  }

  lemma ChecksumExtends(contents: Bytes)
    ensures Crc32c.Mask(Crc32c.Extend(Crc32c.Value(contents), [NO_COMPRESSION])) as int == Masked(contents + [NO_COMPRESSION])
  {
    Crc32c.ExtendJoins(0, contents, [NO_COMPRESSION]);
  }

  lemma PiecesAreStored(file: Bytes, contents: Bytes)
    ensures file + contents + ([NO_COMPRESSION] + Fixed32(Masked(contents + [NO_COMPRESSION]))) == file + Stored(contents)
  {
    hide Fixed, Masked;
    var more := [NO_COMPRESSION] + Fixed32(Masked(contents + [NO_COMPRESSION]));
    assert contents + more == Stored(contents);
    assert file + contents + more == file + (contents + more);
  }

  lemma OneMoreStored(file: Bytes, handles: seq<Handle>, contents: seq<Bytes>, blocks: seq<DataBlock>,
                      h: Handle, data: Bytes, b: DataBlock)
    requires BlocksStored(file, handles, contents, blocks) && BlockStored(file, h, data, b)
    ensures BlocksStored(file, handles + [h], contents + [data], blocks + [b])
  {
    hide BlockStored;
  }

  class TableBuilder {
    const blockSize: nat             // options.block_size
    const dataBlock: BlockBuilder
    const indexBlock: BlockBuilder
    const filterBlock: FilterBlocks.FilterBlockBuilder?
    const name: Bytes                // of the filter policy
    var file: Bytes                  // what is written
    var offset: nat
    var lastKey: IKey
    var pendingIndexEntry: bool
    var pendingHandle: Handle
    ghost var open: seq<Row>         // the rows of the data block being filled
    ghost var index: seq<IndexEntry>
    ghost var blocks: seq<DataBlock> // the data blocks written, where they are, and their contents
    ghost var handles: seq<Handle>
    ghost var contents: seq<Bytes>

    /** Everything added so far. */
    ghost function Rows(): seq<Row>
      reads this
    {
      AllRows(blocks) + open
    }

    ghost function Repr(): set<object> {
      {this, dataBlock, indexBlock} + if filterBlock == null then {} else {filterBlock}
    }

    ghost predicate BuildOk()
      reads this
    {
      && Written(blocks, open, offset)
      && (pendingIndexEntry ==> blocks != [] && open == [] && pendingHandle.offset == blocks[|blocks| - 1].offset)
      && IndexOk(index, blocks, open, if pendingIndexEntry then |blocks| - 1 else |blocks|)
      && (!pendingIndexEntry && open == [] ==> blocks == [])
      && (Rows() != [] ==> lastKey == Rows()[|Rows()| - 1].key)
    }

    ghost predicate FilterValid()
      reads this, if filterBlock == null then {} else {filterBlock}
    {
      filterBlock != null ==>
        && filterBlock.Valid() && |filterBlock.groups| == offset / FilterBlocks.FILTER_BASE
        && AllFiltered(filterBlock.groups, filterBlock.keys, blocks)
        && forall r :: r in open ==> r.key.user in filterBlock.keys
    }

    /** The block builders hold the rows being collected and the index, and the file the blocks written. */
    ghost predicate BytesOk()
      reads this, dataBlock, indexBlock
    {
      && dataBlock != indexBlock && dataBlock.Valid() && indexBlock.Valid()
      && dataBlock.Entries() == RowEntries(open) && |index| <= |handles|
      && indexBlock.Entries() == IndexEntries(index, handles)
      && BlocksStored(file, handles, contents, blocks) && offset == |file|
      && |lastKey.user| < ENTRY_MAX && |name| < ENTRY_MAX
      && (pendingIndexEntry ==> |index| < |handles| && pendingHandle == handles[|index|] && pendingHandle.size < TWO_64)
    }

    ghost predicate Valid()
      reads Repr()
    {
      BuildOk() && FilterValid() && BytesOk()
    }

    constructor (interval: nat, blockSize: nat, filter: FilterBlocks.FilterBlockBuilder?, name: Bytes)
      requires interval >= 1 && |name| < ENTRY_MAX
      requires filter != null ==> filter.Valid() && filter.keys == [] && filter.groups == []
      ensures Valid() && Rows() == [] && filterBlock == filter && this.name == name && FileSize() == 0
      ensures fresh(Repr() - if filter == null then {} else {filter})
    {
      hide FilterBlocks.FilterBlockBuilder.Valid, BlockBuilder.Valid, Contains;
      this.blockSize, filterBlock, this.name := blockSize, filter, name;
      dataBlock := new BlockBuilder(interval);
      indexBlock := new BlockBuilder(1);
      file, offset, lastKey, pendingIndexEntry, pendingHandle := [], 0, IKey([], 0), false, Handle(0, 0);
      open, index, blocks, handles, contents := [], [], [], [], [];
    }

    function FileSize(): nat
      reads this
    {
      offset
    }

    method Add(key: IKey, value: Bytes)
      requires Valid() && (Rows() != [] ==> Comparators.Before(Rows()[|Rows()| - 1].key, key))
      requires |key.user| + |value| < ENTRY_MAX && FileSize() < TWO_64
      modifies Repr()
      ensures Valid() && Rows() == old(Rows()) + [Row(key, value)]
    {
      hide BuildOk, Written, IndexOk, AllFiltered, AllRows, BlocksStored, BlockBuilder.Valid;
      hide FilterBlocks.FilterBlockBuilder.Valid;
      FinishLastBlock(key);
      if filterBlock != null {
        MoreKeys(filterBlock.groups, filterBlock.keys, key.user, blocks);
        filterBlock.AddKey(key.user);
      }
      AddRow(key, value);
      if dataBlock.CurrentSizeEstimate() >= blockSize {
        Flush();
      }
    }

    method FinishLastBlock(key: IKey)
      requires BuildOk() && BytesOk() && (Rows() != [] ==> Comparators.Before(Rows()[|Rows()| - 1].key, key))
      requires FileSize() < TWO_64
      modifies this`index, this`pendingIndexEntry, this`lastKey, indexBlock
      ensures BytesOk() && Written(blocks, open, offset) && !pendingIndexEntry
      ensures IndexOk(index, blocks, if open == [] then [Row(key, [])] else open, |blocks|)
    {
      if pendingIndexEntry {
        PendingFacts();
        hide BuildOk, BlockBuilder.Valid, BlocksStored, AllRows, Comparators.Before, IndexOk, Written, IsSeparator;
        var separator := InternalSeparator(lastKey, key);
        PendingCompleted(separator, key);
        EmitIndexEntry(separator);
      }
    }

    lemma PendingFacts()
      requires BuildOk() && pendingIndexEntry
      ensures open == [] && Rows() != [] && lastKey == Rows()[|Rows()| - 1].key && pendingHandle.offset < offset
    {
      LastRow();
    }

    lemma PendingCompleted(separator: IKey, key: IKey)
      requires BuildOk() && pendingIndexEntry && IsSeparator(lastKey, key, separator)
      ensures IndexOk(index + [IndexEntry(separator, pendingHandle.offset)], blocks, [Row(key, [])], |blocks|)
    {
      hide Comparators.Before, IsSeparator;
      LastRow();
      IndexCompleted(index, blocks, [Row(key, [])], IndexEntry(separator, pendingHandle.offset));
    }

    lemma SizesMatch()
      requires BuildOk() && BytesOk() && !pendingIndexEntry
      ensures |index| == |blocks| == |handles| == |contents| && RowEntries([]) == []
    {
    }

    /** The index entry of the last block is only made when the first key of the next is known, or at the end. */
    method EmitIndexEntry(key: IKey)
      requires BytesOk() && pendingIndexEntry && |key.user| < ENTRY_MAX && pendingHandle.offset < TWO_64
      modifies this`index, this`pendingIndexEntry, this`lastKey, indexBlock
      ensures BytesOk() && !pendingIndexEntry && lastKey == key
      ensures index == old(index) + [IndexEntry(key, pendingHandle.offset)]
    {
      hide BlocksStored, BlockBuilder.Valid, EncodeHandle;
      HandleIsShort(pendingHandle);
      IndexAppended(index, handles, IndexEntry(key, pendingHandle.offset));
      indexBlock.Add(KeyBytes(key), EncodeHandle(pendingHandle));
      index := index + [IndexEntry(key, pendingHandle.offset)];
      pendingIndexEntry := false;
      lastKey := key;
    }

    method AddRow(key: IKey, value: Bytes)
      requires BytesOk() && Written(blocks, open, offset) && |key.user| + |value| < ENTRY_MAX
      requires !pendingIndexEntry && (Rows() != [] ==> Comparators.Before(Rows()[|Rows()| - 1].key, key))
      requires IndexOk(index, blocks, if open == [] then [Row(key, [])] else open, |blocks|)
      modifies this`lastKey, this`open, dataBlock
      ensures BuildOk() && BytesOk() && open == old(open) + [Row(key, value)]
    {
      hide BlocksStored, BlockBuilder.Valid;
      ghost var rows, was := Rows(), open;
      lastKey := key;
      RowAppended(open, Row(key, value));
      dataBlock.Add(KeyBytes(key), value);
      open := open + [Row(key, value)];
      assert Rows() == rows + [Row(key, value)];
      ExtendIncreasing(rows, Row(key, value));
      IndexLooksAtFirst(index, blocks, if was == [] then [Row(key, [])] else was, open, |blocks|);
    }

    method Flush()
      requires Valid()
      modifies Repr()
      ensures Valid() && Rows() == old(Rows()) && open == []
      ensures FileSize() <= old(FileSize() + dataBlock.CurrentSizeEstimate() + TRAILER)
    {
      hide BlocksStored, BlockBuilder.Valid;
      dataBlock.EmptyIfNothingAdded();
      if dataBlock.Empty() {
        return;
      }
      assert !pendingIndexEntry;
      WriteDataBlock();
      if filterBlock != null {
        ghost var groups, keys := filterBlock.groups, filterBlock.keys;
        OffsetsAdvance(old(offset), offset);
        filterBlock.StartBlock(offset);
        StillFiltered(groups, keys, filterBlock.groups, filterBlock.keys, blocks);
      }
    }

    /** Writes the data block to the end of the file. */
    method WriteDataBlock()
      requires Valid() && open != [] && !pendingIndexEntry
      modifies this, dataBlock
      ensures BuildOk() && BytesOk() && Rows() == old(Rows()) && open == []
      ensures offset == old(offset + dataBlock.CurrentSizeEstimate() + TRAILER)
      ensures filterBlock != null ==> AllFiltered(filterBlock.groups, filterBlock.keys, blocks)
    {
      hide Written, IndexOk, AllFiltered, Filtered, AllRows, FilterBlocks.FilterBlockBuilder.Valid, BlocksStored;
      hide BlockBuilder.Valid;
      hide StoredAs, RowEntries, IndexEntries;
      ghost var b := DataBlock(offset, open);
      SizesMatch();
      BeforeWrite(dataBlock.CurrentSizeEstimate());
      ghost var raw: Bytes;
      raw, pendingHandle := WriteBlock(dataBlock);
      BlocksStoredOn(old(file), file, handles, contents, blocks);
      OneMoreStored(file, handles, contents, blocks, pendingHandle, raw, b);
      IndexPrefix(index, handles, pendingHandle);
      blocks, handles, contents, open := blocks + [b], handles + [pendingHandle], contents + [raw], [];
      pendingIndexEntry := true;
    }

    /** Writes a finished block and empties its builder. */
    method WriteBlock(block: BlockBuilder) returns (ghost raw: Bytes, h: Handle)
      requires block.Valid() && offset == |file|
      modifies this`file, this`offset, block
      ensures block.Valid() && block.Entries() == []
      ensures |raw| == old(block.CurrentSizeEstimate()) && h.offset == |old(file)| && h.size < TWO_64
      ensures offset == |file| == |old(file)| + |raw| + TRAILER && old(file) <= file
      ensures StoredAs(file, h, raw, old(block.Entries()))
    {
      hide Contains, BlockBuilder.Valid;
      var contents := block.Finish();
      raw := contents;
      h := WriteRawBlock(contents);
      block.Reset();
    }

    /** The contents, the type, and the checksum of both; the size in the handle is a word. */
    method WriteRawBlock(contents: Bytes) returns (h: Handle)
      requires offset == |file|
      modifies this`file, this`offset
      ensures offset == |file| == |old(file)| + |contents| + TRAILER && old(file) <= file
      ensures h == Handle(|old(file)|, |contents| % TWO_64) && h.size < TWO_64
      ensures |contents| < TWO_32 ==> Holds(file, h, contents)
    {
      hide Fixed, Crc32c.Extend, Crc32c.Value, Crc32c.Mask, Holds, Stored, Masked;
      h := Handle(offset, |contents| % TWO_64);
      StoredIsHeld(file, contents);
      file := file + contents;
      var crc := Crc32c.Value(contents);
      crc := Crc32c.Extend(crc, [NO_COMPRESSION]);
      ChecksumExtends(contents);
      file := file + ([NO_COMPRESSION] + Fixed32(Crc32c.Mask(crc) as int));
      PiecesAreStored(old(file), contents);
      offset := offset + |contents| + TRAILER;
    }

    // Finishing

    /** The last block, the filter, the metaindex, the index, and the footer. */
    method Finish() returns (ghost t: Table, ghost m: FileMap)
      requires Valid() && FileSize() + dataBlock.CurrentSizeEstimate() + TRAILER < TWO_64
      modifies Repr()
      ensures IsFileOf(file, t, m, name) && AllRows(t.blocks) == old(Rows())
      ensures t.filter.Some? <==> filterBlock != null
      ensures filterBlock != null && FileFits(file, t, m) ==> TableOk(t, filterBlock.hash)
      ensures filterBlock == null ==> forall hash :: TableOk(t, hash)
    {
      hide BytesOk, BuildOk, BlockBuilder.Valid, FilterBlocks.FilterBlockBuilder.Valid, FilterBlocks.MustMatch, AllRows;
      hide Written, IndexOk, FilterStored, StoredAs, BlocksStored;
      Flush();
      AllWritten();
      var filter, filterHandle := WriteFilter();
      ghost var file1 := file;
      var metaContents, metaindex := WriteMetaindex(filterHandle);
      ghost var file2 := file;
      var indexContents, indexHandle := WriteIndex();
      ghost var file3 := file;
      WriteFooter(metaindex, indexHandle);
      t := Table(blocks, index, filter);
      m := FileMap(handles, contents, filterHandle, metaindex, metaContents, indexHandle, indexContents);
      FilterStoredOn(file1, file, filterHandle, filter);
      StoredOn(file2, file, metaindex, metaContents, MetaEntries(name, filterHandle));
      StoredOn(file3, file, indexHandle, indexContents, IndexEntries(index, handles));
      BlocksStoredOn(file3, file, handles, contents, blocks);
    }

    lemma AllWritten()
      requires BuildOk() && open == []
      ensures BlocksOk(blocks) && AllRows(blocks) == Rows() && (pendingIndexEntry ==> pendingHandle.offset < offset)
    {
      assert AllRows(blocks) + [] == AllRows(blocks);
      forall i | 0 <= i < |blocks|
        ensures blocks[i].rows != []
      {
        assert blocks[i] in blocks;
      }
    }

    /** Writes the filter block, if there is one. */
    method WriteFilter() returns (ghost contents: Option<Bytes>, h: Option<Handle>)
      requires BuildOk() && BytesOk() && FilterValid() && FileSize() < TWO_64
      modifies Repr()
      ensures BuildOk() && BytesOk()
      ensures Same(old(blocks), old(handles), old(open), old(pendingIndexEntry), old(pendingHandle))
      ensures old(file) <= file
      ensures FilterStored(file, h, contents) && (h.Some? ==> InWords(h.value))
      ensures contents.Some? <==> filterBlock != null
      ensures contents.Some? && |contents.value| < TWO_32 ==> FilterOk(contents, filterBlock.hash, blocks)
    {
      hide BlocksStored, BlockBuilder.Valid, FilterBlocks.FilterBlockBuilder.Valid, FilterBlocks.IsFilterBlock;
      hide FilterOk, IndexOk, AllRows, Holds;
      if filterBlock == null {
        return None, None;
      }
      ghost var groups, keys := filterBlock.groups, filterBlock.keys;
      var filterContents := filterBlock.Finish();
      if |filterContents| < TWO_32 {
        FilterFinished(filterContents, filterBlock.hash, groups, keys, filterBlock.groups, blocks);
      }
      hide AllFiltered;
      var handle := WriteRawBlock(filterContents);
      BlocksStoredOn(old(file), file, handles, this.contents, blocks);
      contents, h := Some(filterContents), Some(handle);
    }

    ghost predicate Same(blocks: seq<DataBlock>, handles: seq<Handle>, open: seq<Row>, pending: bool, handle: Handle)
      reads this
    {
      && this.blocks == blocks && this.handles == handles && this.open == open
      && pendingIndexEntry == pending && pendingHandle == handle
    }

    /** Writes the block that leads to the filter. */
    method WriteMetaindex(filter: Option<Handle>) returns (ghost raw: Bytes, h: Handle)
      requires BuildOk() && BytesOk() && (filter.Some? ==> InWords(filter.value))
      modifies this`file, this`offset
      ensures BuildOk() && BytesOk() && old(file) <= file
      ensures StoredAs(file, h, raw, MetaEntries(name, filter))
    {
      hide BlocksStored, BlockBuilder.Valid, IndexOk, AllRows, StoredAs, EncodeHandle, MetaEntries, RowEntries;
      hide IndexEntries;
      var metaIndexBlock := MetaIndexBlock(filter);
      raw, h := WriteBlock(metaIndexBlock);
      BlocksStoredOn(old(file), file, handles, contents, blocks);
    }

    method MetaIndexBlock(filter: Option<Handle>) returns (block: BlockBuilder)
      requires dataBlock.Valid() && |name| < ENTRY_MAX && (filter.Some? ==> InWords(filter.value))
      ensures fresh(block) && block.Valid() && block.Entries() == MetaEntries(name, filter)
    {
      assert dataBlock.interval >= 1;
      hide BlockBuilder.Valid, EncodeHandle;
      block := new BlockBuilder(dataBlock.interval);
      if filter.Some? {
        HandleIsShort(filter.value);
        block.Add(FILTER_PREFIX + name, EncodeHandle(filter.value));
      }
    }

    /** Completes the index with a key at or after the last one, and writes it. */
    method WriteIndex() returns (ghost raw: Bytes, h: Handle)
      requires BuildOk() && BytesOk() && open == [] && (pendingIndexEntry ==> pendingHandle.offset < TWO_64)
      modifies this, indexBlock
      ensures blocks == old(blocks) && handles == old(handles) && contents == old(contents) && old(file) <= file
      ensures IndexOk(index, blocks, [], |blocks|) && BlocksStored(file, handles, contents, blocks) && offset == |file|
      ensures |index| <= |handles| && StoredAs(file, h, raw, IndexEntries(index, handles))
    {
      hide BlocksStored, BlockBuilder.Valid, AllRows, StoredAs;
      if pendingIndexEntry {
        PendingFacts();
        var successor := InternalSuccessor(lastKey);
        PendingSucceeded(successor);
        EmitIndexEntry(successor);
      }
      raw, h := WriteBlock(indexBlock);
      BlocksStoredOn(old(file), file, handles, contents, blocks);
    }

    lemma PendingSucceeded(successor: IKey)
      requires BuildOk() && pendingIndexEntry && (successor == lastKey || (successor.tag == SEEK_TAG && Less(lastKey.user, successor.user)))
      ensures IndexOk(index + [IndexEntry(successor, pendingHandle.offset)], blocks, [], |blocks|)
    {
      LastRow();
      LessIsTotal(lastKey.user, successor.user);
      BeforeIsTotal(successor, lastKey);
      IndexCompleted(index, blocks, [], IndexEntry(successor, pendingHandle.offset));
    }

    method WriteFooter(metaindex: Handle, index: Handle)
      requires offset == |file|
      modifies this`file, this`offset
      ensures old(file) <= file && offset == |file| == |old(file)| + FOOTER_LENGTH
      ensures file[|file| - FOOTER_LENGTH..] == EncodeFooter(metaindex, index)
    {
      hide EncodeFooter;
      file := file + EncodeFooter(metaindex, index);
      offset := offset + FOOTER_LENGTH;
    }

    lemma BeforeWrite(size: nat)
      requires BuildOk() && FilterValid() && open != [] && !pendingIndexEntry
      ensures var all := blocks + [DataBlock(offset, open)];
              && Written(all, [], offset + size + TRAILER) && IndexOk(index, all, [], |blocks|)
              && AllRows(all) + [] == Rows() && (Rows() != [] ==> lastKey == Rows()[|Rows()| - 1].key)
              && (filterBlock != null ==> AllFiltered(filterBlock.groups, filterBlock.keys, all))
    {
      hide FilterBlocks.FilterBlockBuilder.Valid;
      BlockIsFiltered();
      hide AllFiltered, Filtered;
      BlockWritten(blocks, open, offset, size);
      IndexStays(index, blocks, open, offset);
    }

    lemma BlockIsFiltered()
      requires FilterValid()
      ensures filterBlock != null ==> AllFiltered(filterBlock.groups, filterBlock.keys, blocks + [DataBlock(offset, open)])
    {
      hide FilterBlocks.FilterBlockBuilder.Valid;
      if filterBlock != null {
        assert Filtered(filterBlock.groups, filterBlock.keys, DataBlock(offset, open));
        BlockFiltered(filterBlock.groups, filterBlock.keys, blocks, DataBlock(offset, open));
      }
    }

    lemma LastRow()
      requires (forall b :: b in blocks ==> b.rows != []) && open == [] && blocks != []
      ensures Rows() != [] && Rows()[|Rows()| - 1] == blocks[|blocks| - 1].rows[|blocks[|blocks| - 1].rows| - 1]
    {
      assert blocks[|blocks| - 1] in blocks;
    }
  }

  lemma ExtendIncreasing(rows: seq<Row>, r: Row)
    requires Increasing(rows) && (rows != [] ==> Comparators.Before(rows[|rows| - 1].key, r.key))
    ensures Increasing(rows + [r])
  {
    forall i | 0 <= i < |rows|
      ensures Comparators.Before(rows[i].key, r.key)
    {
      if i < |rows| - 1 { BeforeIsTransitive(rows[i].key, rows[|rows| - 1].key, r.key); }
    }
  }

  lemma OffsetsAdvance(a: nat, b: nat)
    requires a <= b
    ensures a / FilterBlocks.FILTER_BASE <= b / FilterBlocks.FILTER_BASE
  {
  }

  lemma FilterFinished(contents: Bytes, hash: Bloom.Hash, groups: seq<seq<Bytes>>, keys: seq<Bytes>, all: seq<seq<Bytes>>,
                       blocks: seq<DataBlock>)
    requires AllFiltered(groups, keys, blocks) && all == groups + (if keys == [] then [] else [keys])
    requires FilterBlocks.IsFilterBlock(contents, hash, all)
    ensures FilterOk(Some(contents), hash, blocks)
  {
    hide FilterBlocks.IsFilterBlock;
    forall b, r | b in blocks && r in b.rows
      ensures FilterBlocks.MustMatch(hash, contents, b.offset, r.key.user)
    {
      assert Filtered(groups, keys, b);
      assert FilterBlocks.HasKey(all, b.offset, r.key.user);
    }
  }

  lemma MoreKeys(groups: seq<seq<Bytes>>, keys: seq<Bytes>, key: Bytes, blocks: seq<DataBlock>)
    requires AllFiltered(groups, keys, blocks)
    ensures AllFiltered(groups, keys + [key], blocks)
  {
    forall b | b in blocks
      ensures Filtered(groups, keys + [key], b)
    {
      assert Filtered(groups, keys, b);
    }
  }

  /** Filters made since hold the keys that were to go into them. */
  lemma StillFiltered(groups: seq<seq<Bytes>>, keys: seq<Bytes>, groups2: seq<seq<Bytes>>, keys2: seq<Bytes>,
                      blocks: seq<DataBlock>)
    requires AllFiltered(groups, keys, blocks) && groups <= groups2
    requires if |groups| == |groups2| then keys2 == keys else groups2[|groups|] == keys
    ensures AllFiltered(groups2, keys2, blocks)
  {
    forall b | b in blocks
      ensures Filtered(groups2, keys2, b)
    {
      var g := b.offset / FilterBlocks.FILTER_BASE;
      assert Filtered(groups, keys, b);
      assert g < |groups| ==> groups2[g] == groups[g];
    }
  }
}
