/**
 * The two-level iterator (table/two_level_iterator.cc): a cursor over the concatenation of the blocks that an index
 * lists. It walks the blocks of a table, and the files of a level with the largest key of each file as its index.
 */
module TwoLevel {
  import opened InternalKeys
  import opened Files
  import opened Compactions
  import opened Lookup
  import opened Iterators

  /** The entries of the first `n` blocks, one after the other. */
  function Joined(index: seq<Entry>, block: Bytes -> seq<Entry>, n: nat): seq<Entry>
    requires n <= |index|
  {
    if n == 0 then [] else Joined(index, block, n - 1) + block(index[n - 1].value)
  }

  function Start(index: seq<Entry>, block: Bytes -> seq<Entry>, n: nat): nat
    requires n <= |index|
  {
    |Joined(index, block, n)|
  }

  /** Each index key is at or after every key of its block and before every key of the later blocks. */
  ghost predicate Separates(index: seq<Entry>, block: Bytes -> seq<Entry>) {
    && (forall i, e :: 0 <= i < |index| && e in block(index[i].value) ==> !Before(index[i].key, e.key))
    && (forall i, j, e :: 0 <= i < j < |index| && e in block(index[j].value) ==> Before(index[i].key, e.key))
  }

  lemma {:induction false} JoinedAt(index: seq<Entry>, block: Bytes -> seq<Entry>, n: nat, i: nat, k: nat)
    requires i < n <= |index| && k < |block(index[i].value)|
    ensures Start(index, block, i) + k < Start(index, block, n)
    ensures Joined(index, block, n)[Start(index, block, i) + k] == block(index[i].value)[k]
  {
    if i < n - 1 { JoinedAt(index, block, n - 1, i, k); }
  }

  lemma {:induction false} StartsGrow(index: seq<Entry>, block: Bytes -> seq<Entry>, i: nat, n: nat)
    requires i <= n <= |index|
    ensures Start(index, block, i) <= Start(index, block, n)
    ensures Joined(index, block, i) == Joined(index, block, n)[..Start(index, block, i)]
    decreases n
  {
    if i < n { StartsGrow(index, block, i, n - 1); }
  }

  /** Every position of the concatenation lies in one block. */
  lemma {:induction false} Locate(index: seq<Entry>, block: Bytes -> seq<Entry>, n: nat, p: nat) returns (i: nat, k: nat)
    requires n <= |index| && p < Start(index, block, n)
    ensures i < n && k < |block(index[i].value)| && p == Start(index, block, i) + k
    ensures Joined(index, block, n)[p] == block(index[i].value)[k]
  {
    if p < Start(index, block, n - 1) {
      i, k := Locate(index, block, n - 1, p);
    } else {
      i, k := n - 1, p - Start(index, block, n - 1);
    }
  }

  lemma BlockIncreases(index: seq<Entry>, block: Bytes -> seq<Entry>, i: nat)
    requires i < |index| && Increasing(Joined(index, block, |index|))
    ensures Increasing(block(index[i].value))
  {
    var run := block(index[i].value);
    forall k, l | 0 <= k < l < |run|
      ensures Before(run[k].key, run[l].key)
    {
      JoinedAt(index, block, |index|, i, k);
      JoinedAt(index, block, |index|, i, l);
    }
  }

  /** Where a seek in the index and then in the block it names ends up. */
  ghost predicate IsSought(index: seq<Entry>, block: Bytes -> seq<Entry>, target: InternalKey, i: nat, k: nat) {
    && i == SeekIndex(index, target)
    && if i < |index| then k == SeekIndex(block(index[i].value), target) else k == 0
  }

  lemma SoughtIsAfter(index: seq<Entry>, block: Bytes -> seq<Entry>, target: InternalKey, i: nat, k: nat, p: nat)
    requires Separates(index, block) && IsSought(index, block, target, i, k)
    requires p < |Joined(index, block, |index|)| && p < Start(index, block, i) + k
    ensures Before(Joined(index, block, |index|)[p].key, target)
  {
    var j, l := Locate(index, block, |index|, p);
    SoughtInBlock(index, block, target, i, k, j);
    hide Separates, IsSought, Joined, SeekIndex;
    if j < i {
      KeyInBlock(index, block, j, l);
    } else if i < j {
      EndsBefore(index, block, i, j);
    }
  }

  lemma SoughtInBlock(index: seq<Entry>, block: Bytes -> seq<Entry>, target: InternalKey, i: nat, k: nat, j: nat)
    requires IsSought(index, block, target, i, k) && j < |index|
    ensures i <= |index| && (j < i ==> Before(index[j].key, target))
    ensures if i < |index| then k <= |block(index[i].value)| else k == 0
    ensures i < |index| ==> forall l :: 0 <= l < k ==> Before(block(index[i].value)[l].key, target)
  {
  }

  lemma EndsBefore(index: seq<Entry>, block: Bytes -> seq<Entry>, i: nat, j: nat)
    requires i < j <= |index|
    ensures Start(index, block, i) + |block(index[i].value)| <= Start(index, block, j)
  {
    StartsGrow(index, block, i + 1, j);
  }

  lemma SoughtIsFirst(index: seq<Entry>, block: Bytes -> seq<Entry>, target: InternalKey, i: nat, k: nat)
    requires Separates(index, block) && IsSought(index, block, target, i, k)
    requires Start(index, block, i) + k < |Joined(index, block, |index|)|
    ensures !Before(Joined(index, block, |index|)[Start(index, block, i) + k].key, target)
  {
    var j, l := Locate(index, block, |index|, Start(index, block, i) + k);
    SamePlace(index, block, i, k, j, l);
    if i < j { KeyInLaterBlock(index, block, i, j, l); }
  }

  lemma SamePlace(index: seq<Entry>, block: Bytes -> seq<Entry>, i: nat, k: nat, j: nat, l: nat)
    requires i <= |index| && j < |index| && l < |block(index[j].value)|
    requires Start(index, block, i) + k == Start(index, block, j) + l
    ensures i <= j && (i == j ==> k == l)
  {
    if j < i { StartsGrow(index, block, j + 1, i); }
  }

  lemma KeyInBlock(index: seq<Entry>, block: Bytes -> seq<Entry>, j: nat, l: nat)
    requires Separates(index, block) && j < |index| && l < |block(index[j].value)|
    ensures !Before(index[j].key, block(index[j].value)[l].key)
  {
    assert block(index[j].value)[l] in block(index[j].value);
  }

  lemma KeyInLaterBlock(index: seq<Entry>, block: Bytes -> seq<Entry>, i: nat, j: nat, l: nat)
    requires Separates(index, block) && i < j < |index| && l < |block(index[j].value)|
    ensures Before(index[i].key, block(index[j].value)[l].key)
  {
    assert block(index[j].value)[l] in block(index[j].value);
  }

  /** A seek in the index and then in the block it names is a seek in the concatenation. */
  lemma SeekBoth(index: seq<Entry>, block: Bytes -> seq<Entry>, target: InternalKey, i: nat, k: nat)
    requires Separates(index, block) && IsSought(index, block, target, i, k)
    ensures SeekIndex(Joined(index, block, |index|), target) == Start(index, block, i) + k
  {
    var all, q := Joined(index, block, |index|), Start(index, block, i) + k;
    StartsGrow(index, block, if i < |index| then i + 1 else i, |index|);
    forall p | 0 <= p < q && p < |all|
      ensures Before(all[p].key, target)
    {
      SoughtIsAfter(index, block, target, i, k, p);
    }
    if q < |all| { SoughtIsFirst(index, block, target, i, k); }
    SeekIndexIs(all, target, q);
  }

  /** The index over the files of a level: the largest key of each file leads to its contents. */
  ghost predicate IndexesLevel(index: seq<Entry>, block: Bytes -> seq<Entry>, level: seq<Table>) {
    && |index| == |level|
    && forall i :: 0 <= i < |level| ==> index[i].key == level[i].largest && block(index[i].value) == level[i].contents
  }

  lemma EntryInRange(f: Table, e: Entry)
    requires TableOk(f) && e in f.contents
    ensures !Precedes(e.key, f.smallest) && !Precedes(f.largest, e.key)
  {
  }

  /** The files of a sorted level may be walked this way: the index is sorted and separates them. */
  lemma LevelSeparates(index: seq<Entry>, block: Bytes -> seq<Entry>, level: seq<Table>)
    requires IndexesLevel(index, block, level) && TablesOk(level) && LevelSorted(level)
    ensures Increasing(index) && Separates(index, block)
  {
    forall i, j | 0 <= i < j < |index|
      ensures Before(index[i].key, index[j].key)
    {
      EndsApart(level, i, j);
    }
    forall i, e | 0 <= i < |index| && e in block(index[i].value)
      ensures !Before(index[i].key, e.key)
    {
      LastIsLargest(level[i], e);
    }
    forall i, j, e | 0 <= i < j < |index| && e in block(index[j].value)
      ensures Before(index[i].key, e.key)
    {
      FilesApart(level, i, j, e);
    }
  }

  lemma LastIsLargest(f: Table, e: Entry)
    requires TableOk(f) && e in f.contents
    ensures !Before(f.largest, e.key)
  {
    var k :| 0 <= k < |f.contents| && f.contents[k] == e;
  }

  lemma EndsApart(level: seq<Table>, i: nat, j: nat)
    requires TablesOk(level) && LevelSorted(level) && i < j < |level|
    ensures Before(level[i].largest, level[j].largest)
  {
    var f := level[j];
    assert f in level;
    FilesApart(level, i, j, f.contents[|f.contents| - 1]);
  }

  lemma FilesApart(level: seq<Table>, i: nat, j: nat, e: Entry)
    requires TablesOk(level) && LevelSorted(level) && i < j < |level| && e in level[j].contents
    ensures Precedes(level[i].largest, e.key)
  {
    EntryInRange(level[j], e);
  }

  /** The concatenation of a sorted level's files is sorted. */
  lemma {:induction false} LevelJoins(index: seq<Entry>, block: Bytes -> seq<Entry>, level: seq<Table>, n: nat)
    requires IndexesLevel(index, block, level) && TablesOk(level) && LevelSorted(level) && n <= |level|
    ensures Sorted(Joined(index, block, n))
    ensures forall e :: e in Joined(index, block, n) <==> exists f :: f in level[..n] && e in f.contents
  {
    if n > 0 {
      LevelJoins(index, block, level, n - 1);
      assert level[..n] == level[..n - 1] + [level[n - 1]];
      forall x, y | x in Joined(index, block, n - 1) && y in level[n - 1].contents
        ensures Precedes(x.key, y.key)
      {
        var f :| f in level[..n - 1] && x in f.contents;
        var i :| 0 <= i < n - 1 && level[i] == f;
        FilesApart(level, i, n - 1, y);
        EntryInRange(level[i], x);
      }
      assert level[n - 1] in level;
      SortedJoins(Joined(index, block, n - 1), level[n - 1].contents);
    }
  }

  lemma SortedJoins(a: seq<Entry>, b: seq<Entry>)
    requires Sorted(a) && Sorted(b) && forall x, y :: x in a && y in b ==> Precedes(x.key, y.key)
    ensures Sorted(a + b)
  {
  }

  class TwoLevelIterator {
    const index: RunIterator
    const block: Bytes -> seq<Entry>  // the block function
    const data: RunIterator           // over a block, if there is one
    var hasData: bool
    var dataHandle: Bytes             // what `data` was made from
    ghost const entries: seq<Entry>   // the index

    constructor (index: RunIterator, block: Bytes -> seq<Entry>)
      ensures this.index == index && this.block == block && entries == index.run && fresh(data) && Inv() && !hasData
    {
      this.index, this.block, entries := index, block, index.run;
      data := new RunIterator([]);
      hasData, dataHandle := false, [];
    }

    /** The entries the iterator ranges over. */
    ghost function All(): seq<Entry> { Joined(entries, block, |entries|) }

    ghost function Repr(): set<object> { {this, index, data} }

    ghost predicate Linked()
      reads Repr()
    {
      && index != data && index.run == entries && index.index <= |entries| && (hasData <==> index.Valid())
      && (hasData ==> data.run == block(index.Value()) && data.index <= |data.run| && dataHandle == index.Value())
    }

    /** The state between calls: there is no data iterator, or it is the one of the current index entry and on an entry. */
    ghost predicate Inv()
      reads Repr()
    {
      index != data && index.run == entries && (hasData ==> Linked() && data.Valid())
    }

    /** How many entries are before the cursor, looking forward. */
    ghost function Ahead(): nat
      requires Linked()
      reads Repr()
    {
      if hasData then Start(entries, block, index.index) + data.index else |All()|
    }

    /** How many entries are at or before the cursor, looking back. */
    ghost function Behind(): nat
      requires Linked()
      reads Repr()
    {
      if hasData then Start(entries, block, index.index) + (if data.Valid() then data.index + 1 else 0) else 0
    }

    ghost function Pos(): nat
      requires Inv()
      reads Repr()
    {
      if hasData then Start(entries, block, index.index) + data.index else |All()|
    }

    predicate Valid()
      reads this, data
    {
      hasData && data.Valid()
    }

    /** The cursor is on the entry at its position. */
    lemma OnEntry()
      requires Inv()
      ensures Pos() <= |All()| && (Valid() <==> Pos() < |All()|)
      ensures Valid() ==> data.run[data.index] == All()[Pos()]
    {
      if hasData {
        JoinedAt(entries, block, |entries|, index.index, data.index);
      }
    }

    function Key(): InternalKey
      requires Valid()
      reads this, data
    {
      data.Key()
    }

    function Value(): Bytes
      requires Valid()
      reads this, data
    {
      data.Value()
    }

    method InitDataBlock()
      requires index != data && index.index <= |index.run|
      requires hasData ==> data.run == block(dataHandle)
      modifies this, data
      ensures hasData <==> index.Valid()
      ensures hasData ==> data.run == block(dataHandle) && dataHandle == index.Value()
      ensures old(hasData) && hasData && old(dataHandle) == dataHandle ==> data.index == old(data.index)
      ensures hasData && !(old(hasData) && old(dataHandle) == dataHandle) ==> data.index == |data.run|
    {
      if !index.Valid() {
        hasData := false;
      } else {
        var handle := index.Value();
        if hasData && handle == dataHandle {
          // The data iterator already is the one of this block.
        } else {
          data.Set(block(handle));
          hasData, dataHandle := true, handle;
        }
      }
    }

    method SkipEmptyDataBlocksForward()
      requires Linked()
      modifies Repr()
      ensures Inv() && Pos() == old(Ahead())
    {
      while !hasData || !data.Valid()
        invariant Linked() && Ahead() == old(Ahead())
        decreases |entries| - index.index, hasData
      {
        if !index.Valid() {
          hasData := false;
          return;
        }
        index.Next();
        InitDataBlock();
        if hasData { data.SeekToFirst(); }
      }
    }

    method SkipEmptyDataBlocksBackward()
      requires Linked()
      modifies Repr()
      ensures Inv() && Pos() == (if old(Behind()) == 0 then |All()| else old(Behind()) - 1)
    {
      while !hasData || !data.Valid()
        invariant Linked() && Behind() == old(Behind())
        decreases if index.Valid() then index.index + 1 else 0
      {
        if !index.Valid() {
          hasData := false;
          return;
        }
        index.Prev();
        InitDataBlock();
        if hasData { data.SeekToLast(); }
      }
    }

    method SeekData(target: InternalKey)
      requires Increasing(All()) && index.run == entries && index.Valid() && data != index
      requires data.run == block(index.Value())
      modifies data`index
      ensures data.index == SeekIndex(data.run, target)
    {
      BlockIncreases(entries, block, index.index);
      data.Seek(target);
    }

    method Seek(target: InternalKey)
      requires Increasing(All()) && Increasing(entries) && Separates(entries, block) && Inv()
      modifies Repr()
      ensures Inv() && Pos() == SeekIndex(All(), target)
    {
      hide Separates, IsSought, SeekIndex, Increasing, Joined;
      SeekIndexAndData(target);
      SeekBoth(entries, block, target, index.index, if hasData then data.index else 0);
      SkipEmptyDataBlocksForward();
    }

    method SeekIndexAndData(target: InternalKey)
      requires Increasing(All()) && Increasing(entries) && Inv()
      modifies Repr()
      ensures Linked() && IsSought(entries, block, target, index.index, if hasData then data.index else 0)
    {
      hide Increasing, Joined;
      index.Seek(target);
      InitDataBlock();
      if hasData { SeekData(target); }
    }

    method SeekToFirst()
      requires Inv()
      modifies Repr()
      ensures Inv() && Pos() == FirstPos(All())
    {
      index.SeekToFirst();
      InitDataBlock();
      if hasData { data.SeekToFirst(); }
      SkipEmptyDataBlocksForward();
    }

    method SeekToLast()
      requires Inv()
      modifies Repr()
      ensures Inv() && Pos() == LastPos(All())
    {
      index.SeekToLast();
      InitDataBlock();
      if hasData { data.SeekToLast(); }
      SkipEmptyDataBlocksBackward();
    }

    method Next()
      requires Inv() && Valid()
      modifies Repr()
      ensures Inv() && old(Pos()) < |All()| && Pos() == NextPos(All(), old(Pos()))
    {
      OnEntry();
      data.Next();
      SkipEmptyDataBlocksForward();
    }

    method Prev()
      requires Inv() && Valid()
      modifies Repr()
      ensures Inv() && old(Pos()) < |All()| && Pos() == PrevPos(All(), old(Pos()))
    {
      OnEntry();
      data.Prev();
      SkipEmptyDataBlocksBackward();
    }
  }
}
