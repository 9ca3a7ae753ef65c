/**
 * Tables: data blocks behind an index of shortened keys and a filter, why a lookup may go through one block only, and
 * the bytes of a finished table file (table/table_builder.cc, table/table.cc).
 */
module Tables {
  import opened Wrappers
  import opened InternalKeys
  import opened Coding
  import opened Comparators
  import opened KeyCoding
  import opened Blocks
  import opened BlockIterator
  import opened TableFormat
  import Bloom
  import FilterBlocks

  datatype Row = Row(key: IKey, value: Bytes)

  datatype DataBlock = DataBlock(offset: nat, rows: seq<Row>)

  /** An index key and the handle of its block. */
  datatype IndexEntry = IndexEntry(key: IKey, offset: nat)

  datatype Table = Table(blocks: seq<DataBlock>, index: seq<IndexEntry>, filter: Option<Bytes>)

  // What a table promises

  ghost predicate Increasing(rows: seq<Row>) {
    forall i, j :: 0 <= i < j < |rows| ==> Comparators.Before(rows[i].key, rows[j].key)
  }

  function AllRows(blocks: seq<DataBlock>): seq<Row> {
    if blocks == [] then [] else AllRows(blocks[..|blocks| - 1]) + blocks[|blocks| - 1].rows
  }

  /** The index key of block `i` stands between its last key and everything after the block. */
  ghost predicate IndexKeyOk(key: IKey, last: IKey, next: Option<IKey>) {
    match next
    case None => !Comparators.Before(key, last)
    case Some(limit) => IsSeparator(last, limit, key)
  }

  ghost predicate BlocksOk(blocks: seq<DataBlock>) {
    && Increasing(AllRows(blocks)) && (forall i :: 0 <= i < |blocks| ==> blocks[i].rows != [])
    && forall i, j :: 0 <= i < j < |blocks| ==> blocks[i].offset < blocks[j].offset
  }

  /** The first key after block `i`. */
  function KeyAfter(blocks: seq<DataBlock>, open: seq<Row>, i: nat): Option<IKey>
    requires i < |blocks|
  {
    FirstKey(if i + 1 < |blocks| then blocks[i + 1].rows else open)
  }

  function FirstKey(rows: seq<Row>): Option<IKey> {
    if rows == [] then None else Some(rows[0].key)
  }

  function LastKey(b: DataBlock): IKey {
    if b.rows == [] then IKey([], 0) else b.rows[|b.rows| - 1].key
  }

  /** The index covers the first `n` blocks. */
  ghost predicate IndexOk(index: seq<IndexEntry>, blocks: seq<DataBlock>, open: seq<Row>, n: nat) {
    && |index| == n <= |blocks|
    && forall i :: 0 <= i < n ==> EntryOk(index[i], blocks, open, i)
  }

  ghost predicate EntryOk(e: IndexEntry, blocks: seq<DataBlock>, open: seq<Row>, i: nat)
    requires i < |blocks|
  {
    e.offset == blocks[i].offset && IndexKeyOk(e.key, LastKey(blocks[i]), KeyAfter(blocks, open, i))
  }

  /** The filter matches every key of every block. */
  ghost predicate FilterOk(filter: Option<Bytes>, hash: Bloom.Hash, blocks: seq<DataBlock>) {
    filter.Some? ==> forall b, r :: b in blocks && r in b.rows ==>
      FilterBlocks.MustMatch(hash, filter.value, b.offset, r.key.user)
  }

  ghost predicate TableOk(t: Table, hash: Bloom.Hash) {
    && BlocksOk(t.blocks)
    && IndexOk(t.index, t.blocks, [], |t.blocks|) && FilterOk(t.filter, hash, t.blocks)
  }

  // Looking up

  /** The position of the first row at or after a key. */
  ghost predicate IsFirst(rows: seq<Row>, k: IKey, i: nat) {
    && i <= |rows| && (forall j :: 0 <= j < i ==> Comparators.Before(rows[j].key, k))
    && (i < |rows| ==> !Comparators.Before(rows[i].key, k))
  }

  datatype Saver = NotFound | Found(value: Bytes) | Deleted

  /** SaveValue, called with the row a lookup ends up at. */
  function Saved(row: Option<Row>, user: Bytes): Saver {
    if row.None? || row.value.key.user != user then NotFound
    else if row.value.key.tag % 256 == 1 then Found(row.value.value)
    else Deleted
  }

  /** The newest row of a user key not newer than the lookup key. */
  ghost predicate IsNewest(rows: seq<Row>, k: IKey, row: Row) {
    && row in rows && row.key.user == k.user && row.key.tag <= k.tag
    && forall r :: r in rows && r.key.user == k.user && r.key.tag <= k.tag ==> r.key.tag <= row.key.tag
  }

  /** What a lookup must give. */
  ghost predicate Answers(rows: seq<Row>, k: IKey, s: Saver) {
    if s == NotFound then forall r :: r in rows && r.key.user == k.user ==> r.key.tag > k.tag
    else exists row :: IsNewest(rows, k, row) && s == Saved(Some(row), k.user)
  }

  /** The first row at or after the lookup key answers. */
  lemma FirstAnswers(rows: seq<Row>, k: IKey, i: nat)
    requires Increasing(rows) && IsFirst(rows, k, i)
    ensures Answers(rows, k, Saved(if i < |rows| then Some(rows[i]) else None, k.user))
  {
    forall r | r in rows && r.key.user == k.user && r.key.tag <= k.tag
      ensures i < |rows| && rows[i].key.user == k.user && r.key.tag <= rows[i].key.tag <= k.tag
    {
      var j :| 0 <= j < |rows| && rows[j] == r;
      LessIsTotal(k.user, k.user);
      assert j >= i;
      BeforeIsTotal(rows[i].key, k);
      LessIsTotal(rows[i].key.user, k.user);
      if j > i { LessIsTotal(rows[i].key.user, r.key.user); }
    }
    if i < |rows| && rows[i].key.user == k.user {
      LessIsTotal(k.user, k.user);
      assert IsNewest(rows, k, rows[i]);
    }
  }

  // The rows of the blocks

  lemma {:induction false} InSomeBlock(blocks: seq<DataBlock>, r: Row)
    ensures r in AllRows(blocks) <==> exists i :: 0 <= i < |blocks| && r in blocks[i].rows
    decreases |blocks|
  {
    if blocks != [] {
      var front, last := blocks[..|blocks| - 1], blocks[|blocks| - 1];
      InSomeBlock(front, r);
      if r in AllRows(front) {
        var i :| 0 <= i < |front| && r in front[i].rows;
        assert blocks[i] == front[i];
      }
      if i :| 0 <= i < |blocks| && r in blocks[i].rows { assert i < |front| ==> front[i] == blocks[i]; }
    }
  }

  lemma SplitIncreasing(a: seq<Row>, b: seq<Row>)
    requires Increasing(a + b)
    ensures Increasing(a) && Increasing(b)
    ensures forall x, y :: x in a && y in b ==> Comparators.Before(x.key, y.key)
  {
    var all := a + b;
    assert forall i :: 0 <= i < |a| ==> all[i] == a[i];
    assert forall i :: 0 <= i < |b| ==> all[|a| + i] == b[i];
    forall x, y | x in a && y in b
      ensures Comparators.Before(x.key, y.key)
    {
      var i :| 0 <= i < |a| && a[i] == x;
      var j :| 0 <= j < |b| && b[j] == y;
    }
  }

  lemma {:induction false} BlocksApart(blocks: seq<DataBlock>, i: nat, j: nat, x: Row, y: Row)
    requires Increasing(AllRows(blocks)) && i < j < |blocks| && x in blocks[i].rows && y in blocks[j].rows
    ensures Comparators.Before(x.key, y.key)
    decreases |blocks|
  {
    var front, last := blocks[..|blocks| - 1], blocks[|blocks| - 1];
    SplitIncreasing(AllRows(front), last.rows);
    if j < |front| {
      BlocksApart(front, i, j, x, y);
    } else {
      assert front[i] == blocks[i];
      InSomeBlock(front, x);
    }
  }

  lemma {:induction false} BlockIncreases(blocks: seq<DataBlock>, i: nat)
    requires Increasing(AllRows(blocks)) && i < |blocks|
    ensures Increasing(blocks[i].rows)
    decreases |blocks|
  {
    var front, last := blocks[..|blocks| - 1], blocks[|blocks| - 1];
    SplitIncreasing(AllRows(front), last.rows);
    if i < |front| { BlockIncreases(front, i); }
  }

  /** No row of a block is after its index key. */
  lemma IndexKeyIsLast(t: Table, hash: Bloom.Hash, i: nat, r: Row)
    requires TableOk(t, hash) && i < |t.blocks| && r in t.blocks[i].rows
    ensures !Comparators.Before(t.index[i].key, r.key)
  {
    var b, key, last := t.blocks[i], t.index[i].key, LastKey(t.blocks[i]);
    BlockIncreases(t.blocks, i);
    var j :| 0 <= j < |b.rows| && b.rows[j] == r;
    assert EntryOk(t.index[i], t.blocks, [], i);
    if i + 1 < |t.blocks| {
      var next := t.blocks[i + 1].rows[0];
      BlocksApart(t.blocks, i, i + 1, b.rows[|b.rows| - 1], next);
      SeparatorIsBetween(last, next.key, key);
    }
    NotAfter(key, last, r.key);
  }

  lemma NotAfter(key: IKey, last: IKey, k: IKey)
    requires !Comparators.Before(key, last) && (k == last || Comparators.Before(k, last))
    ensures !Comparators.Before(key, k)
  {
    if Comparators.Before(key, k) && k != last { BeforeIsTransitive(key, k, last); }
  }

  /** The index key of a block before the lookup key: the block has no row for the lookup. */
  lemma EarlierBlock(t: Table, hash: Bloom.Hash, k: IKey, j: nat, r: Row)
    requires TableOk(t, hash) && j < |t.blocks| && r in t.blocks[j].rows && Comparators.Before(t.index[j].key, k)
    ensures Comparators.Before(r.key, k)
  {
    IndexKeyIsLast(t, hash, j, r);
    BeforeIsTotal(t.index[j].key, r.key);
    if Comparators.Before(r.key, t.index[j].key) { BeforeIsTransitive(r.key, t.index[j].key, k); }
  }

  /** A row beyond the block the index leads to: that block has a newer one. */
  lemma LaterBlock(t: Table, hash: Bloom.Hash, k: IKey, i: nat, j: nat, r: Row)
    requires TableOk(t, hash) && i < j < |t.blocks| && r in t.blocks[j].rows && r.key.user == k.user
    requires r.key.tag <= k.tag
    requires !Comparators.Before(t.index[i].key, k)
    ensures exists e :: e in t.blocks[i].rows && e.key.user == k.user && r.key.tag < e.key.tag <= k.tag
  {
    var b, key, last := t.blocks[i], t.index[i].key, LastKey(t.blocks[i]);
    var e, next := b.rows[|b.rows| - 1], t.blocks[i + 1].rows[0];
    assert e in b.rows && next in t.blocks[i + 1].rows;
    BlocksApart(t.blocks, i, j, e, r);
    assert EntryOk(t.index[i], t.blocks, [], i);
    if i + 1 < j { BlocksApart(t.blocks, i + 1, j, next, r); } else { FirstInBlock(t.blocks, j, r); }
    UsersBetween(k, key, last, next.key, r.key);
  }

  lemma FirstInBlock(blocks: seq<DataBlock>, j: nat, r: Row)
    requires Increasing(AllRows(blocks)) && j < |blocks| && r in blocks[j].rows
    ensures blocks[j].rows[0].key == r.key || Comparators.Before(blocks[j].rows[0].key, r.key)
  {
    BlockIncreases(blocks, j);
    var i :| 0 <= i < |blocks[j].rows| && blocks[j].rows[i] == r;
  }

  lemma UsersBetween(k: IKey, key: IKey, last: IKey, next: IKey, r: IKey)
    requires !Comparators.Before(key, k) && IsSeparator(last, next, key) && Comparators.Before(last, r)
    requires r.user == k.user && (next == r || Comparators.Before(next, r))
    ensures last.user == k.user && r.tag < last.tag <= k.tag
  {
    LessIsTotal(key.user, k.user);
    LessIsTotal(last.user, r.user);
    LessIsTotal(next.user, r.user);
    if key != last {
      if Less(key.user, next.user) && Less(next.user, r.user) { LessIsTransitive(key.user, next.user, r.user); }
    }
  }

  /** The block the index leads to answers for the whole table. */
  lemma BlockAnswers(t: Table, hash: Bloom.Hash, k: IKey, i: nat, s: Saver)
    requires TableOk(t, hash) && i < |t.blocks| && !Comparators.Before(t.index[i].key, k)
    requires forall j :: 0 <= j < i ==> Comparators.Before(t.index[j].key, k)
    requires Answers(t.blocks[i].rows, k, s)
    ensures Answers(AllRows(t.blocks), k, s)
  {
    var rows := t.blocks[i].rows;
    forall r | r in AllRows(t.blocks) && r.key.user == k.user && r.key.tag <= k.tag
      ensures exists e :: e in rows && e.key.user == k.user && r.key.tag <= e.key.tag <= k.tag
    {
      InSomeBlock(t.blocks, r);
      var j :| 0 <= j < |t.blocks| && r in t.blocks[j].rows;
      if j < i {
        EarlierBlock(t, hash, k, j, r);
        LessIsTotal(k.user, k.user);
      } else if j > i {
        LaterBlock(t, hash, k, i, j, r);
      }
    }
    if s != NotFound {
      var row :| IsNewest(rows, k, row) && s == Saved(Some(row), k.user);
      InSomeBlock(t.blocks, row);
      assert IsNewest(AllRows(t.blocks), k, row);
    }
  }

  lemma NoBlockAnswers(t: Table, hash: Bloom.Hash, k: IKey)
    requires TableOk(t, hash) && forall j :: 0 <= j < |t.blocks| ==> Comparators.Before(t.index[j].key, k)
    ensures Answers(AllRows(t.blocks), k, NotFound)
  {
    forall r | r in AllRows(t.blocks) && r.key.user == k.user
      ensures r.key.tag > k.tag
    {
      InSomeBlock(t.blocks, r);
      var j :| 0 <= j < |t.blocks| && r in t.blocks[j].rows;
      EarlierBlock(t, hash, k, j, r);
      LessIsTotal(k.user, k.user);
    }
  }

  /** The index keys increase, so that an index can be searched. */
  lemma IndexIncreases(t: Table, hash: Bloom.Hash, i: nat, j: nat)
    requires TableOk(t, hash) && i < j < |t.blocks|
    ensures Comparators.Before(t.index[i].key, t.index[j].key)
  {
    var a, b, r := t.index[i].key, t.index[j].key, t.blocks[j].rows[0];
    assert r in t.blocks[j].rows;
    IndexKeyIsLast(t, hash, j, r);
    BeforeLaterBlock(t, hash, i, j);
    BeforeIsTotal(b, r.key);
    if Comparators.Before(r.key, b) { BeforeIsTransitive(a, r.key, b); }
  }

  lemma BeforeLaterBlock(t: Table, hash: Bloom.Hash, i: nat, j: nat)
    requires TableOk(t, hash) && i < j < |t.blocks|
    ensures Comparators.Before(t.index[i].key, t.blocks[j].rows[0].key)
  {
    var key, last, next := t.index[i].key, LastKey(t.blocks[i]), t.blocks[i + 1].rows[0];
    assert EntryOk(t.index[i], t.blocks, [], i);
    var e := t.blocks[i].rows[|t.blocks[i].rows| - 1];
    assert e in t.blocks[i].rows && next in t.blocks[i + 1].rows;
    BlocksApart(t.blocks, i, i + 1, e, next);
    SeparatorIsBetween(last, next.key, key);
    if i + 1 < j {
      assert t.blocks[j].rows[0] in t.blocks[j].rows;
      BlocksApart(t.blocks, i + 1, j, next, t.blocks[j].rows[0]);
      BeforeIsTransitive(key, next.key, t.blocks[j].rows[0].key);
    }
  }

  // The bytes of a table

  function KeyBytes(k: IKey): Bytes { AppendKey(k.user, k.tag) }

  /** The key some bytes stand for; a string too short to hold a tag is read as a bare user key. */
  function KeyOf(b: Bytes): IKey {
    if |b| < TAG_LENGTH then IKey(b, 0) else IKey(UserOf(b), TagOf(b))
  }

  lemma KeyIsRead(k: IKey)
    ensures KeyOf(KeyBytes(k)) == k
  {
    KeyInverts(k.user, k.tag);
  }

  /** InternalKeyComparator::Compare. */
  predicate BytesBefore(a: Bytes, b: Bytes) { Comparators.Before(KeyOf(a), KeyOf(b)) }

  lemma BytesBeforeIsTransitive()
    ensures Transitive(BytesBefore)
  {
    forall a, b, c | BytesBefore(a, b) && BytesBefore(b, c)
      ensures BytesBefore(a, c)
    {
      BeforeIsTransitive(KeyOf(a), KeyOf(b), KeyOf(c));
    }
  }

  function RowEntries(rows: seq<Row>): (e: seq<KV>)
    ensures |e| == |rows|
  {
    seq(|rows|, i requires 0 <= i < |rows| => KV(KeyBytes(rows[i].key), rows[i].value))
  }

  function IndexEntries(index: seq<IndexEntry>, handles: seq<Handle>): (e: seq<KV>)
    requires |index| <= |handles|
    ensures |e| == |index|
  {
    seq(|index|, i requires 0 <= i < |index| => KV(KeyBytes(index[i].key), EncodeHandle(handles[i])))
  }

  const FILTER_PREFIX: Bytes := [102, 105, 108, 116, 101, 114, 46]  // "filter."

  /** The metaindex leads to the filter by the name of its policy. */
  function MetaEntries(name: Bytes, filter: Option<Handle>): seq<KV> {
    if filter.Some? then [KV(FILTER_PREFIX + name, EncodeHandle(filter.value))] else []
  }

  /** Where the blocks of a file are, and what they contain. */
  datatype FileMap = FileMap(
    handles: seq<Handle>, contents: seq<Bytes>,
    filter: Option<Handle>,
    metaindex: Handle, metaContents: Bytes,
    index: Handle, indexContents: Bytes)

  /** The file holds a block; the restart points of one of four gigabytes or more are cut and lead nowhere. */
  ghost predicate StoredAs(file: Bytes, h: Handle, contents: Bytes, entries: seq<KV>) {
    |contents| < TWO_32 ==> Holds(file, h, contents) && Contains(contents, entries)
  }

  ghost predicate BlockStored(file: Bytes, h: Handle, contents: Bytes, b: DataBlock) {
    StoredAs(file, h, contents, RowEntries(b.rows)) && h.offset == b.offset && b.offset < |file|
  }

  ghost predicate BlocksStored(file: Bytes, handles: seq<Handle>, contents: seq<Bytes>, blocks: seq<DataBlock>) {
    && |handles| == |contents| == |blocks|
    && forall i :: 0 <= i < |blocks| ==> BlockStored(file, handles[i], contents[i], blocks[i])
  }

  ghost predicate FilterStored(file: Bytes, h: Option<Handle>, filter: Option<Bytes>) {
    (h.Some? <==> filter.Some?) && (h.Some? && |filter.value| < TWO_32 ==> Holds(file, h.value, filter.value))
  }

  /** All offsets are words, and all blocks are below four gigabytes. */
  ghost predicate FileFits(file: Bytes, t: Table, m: FileMap) {
    && |file| < TWO_64 && (forall c :: c in m.contents ==> |c| < TWO_32) && (t.filter.Some? ==> |t.filter.value| < TWO_32)
    && |m.indexContents| < TWO_32 && |m.metaContents| < TWO_32
  }

  /** A finished file: its blocks, the filter, the metaindex, the index, and the footer that leads to them. */
  ghost predicate IsFileOf(file: Bytes, t: Table, m: FileMap, name: Bytes) {
    && BlocksStored(file, m.handles, m.contents, t.blocks) && FilterStored(file, m.filter, t.filter)
    && StoredAs(file, m.metaindex, m.metaContents, MetaEntries(name, m.filter))
    && |t.index| <= |m.handles| && StoredAs(file, m.index, m.indexContents, IndexEntries(t.index, m.handles))
    && |file| >= FOOTER_LENGTH && file[|file| - FOOTER_LENGTH..] == EncodeFooter(m.metaindex, m.index)
  }
}
