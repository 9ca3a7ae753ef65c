/**
 * The iterator over a block (table/block.cc, Block::Iter): a cursor over the entries that were added, in both
 * directions, although entries can only be decoded forward from a restart point.
 */
module BlockIterator {
  import opened InternalKeys
  import opened Coding
  import opened Blocks

  /** The user's or the internal comparator: whether a key is before another. */
  type Order = (Bytes, Bytes) -> bool

  ghost predicate Transitive(before: Order) {
    forall a, b, c :: before(a, b) && before(b, c) ==> before(a, c)
  }

  ghost predicate KeysIncrease(entries: seq<KV>, before: Order) {
    forall i, j :: 0 <= i < j < |entries| ==> before(entries[i].key, entries[j].key)
  }

  /** The first entry at or after the target. */
  ghost predicate IsFirstAtOrAfter(entries: seq<KV>, before: Order, target: Bytes, i: nat) {
    && i <= |entries| && (forall j :: 0 <= j < i ==> before(entries[j].key, target))
    && (i < |entries| ==> !before(entries[i].key, target))
  }

  class Iter {
    const contents: Bytes
    const restarts: nat     // the offset of the restart points
    const numRestarts: nat
    const before: Order
    ghost const lay: Layout

    var current: nat        // the offset of the current entry, `restarts` if there is none
    var restartIndex: nat
    var key: Bytes
    var valueStart: nat
    var valueLength: nat

    /** Over a finished block. */
    constructor (contents: Bytes, before: Order, ghost data: Bytes, ghost points: seq<nat>, ghost lay: Layout)
      requires IsBlock(contents, data, points, lay)
      ensures Ready() && this.contents == contents && this.lay == lay && this.before == before
      ensures current == restarts && At(|lay.entries|)
    {
      BlockParses(contents, data, points, lay);
      this.contents, this.before, this.lay := contents, before, lay;
      var offset := RestartOffset(contents).value;
      restarts, numRestarts := offset, NumRestarts(contents);
      current, restartIndex := offset, NumRestarts(contents);
      key, valueStart, valueLength := [], 0, 0;
      new;
      assert RestartsAre(points, lay);
      LastOffset(data, lay);
    }

    function Data(): Bytes
      requires restarts <= |contents|
    {
      contents[..restarts]
    }

    function GetRestartPoint(index: nat): nat
      requires restarts + 4 * numRestarts <= |contents| && index < numRestarts
    {
      RestartPoint(contents, restarts, index)
    }

    ghost predicate Ready() {
      && restarts + 4 * numRestarts <= |contents| && LayoutOk(Data(), lay) && numRestarts == |lay.marks|
      && forall j :: 0 <= j < numRestarts ==> GetRestartPoint(j) == lay.offsets[lay.marks[j]]
    }

    /** The iterator is at entry `i`, past the end if there is none. */
    ghost predicate At(i: nat)
      requires Ready()
      reads this
    {
      && i <= |lay.entries| && current == lay.offsets[i]
      && (i < |lay.entries| ==>
            && key == lay.entries[i].key && NextEntryOffset() == lay.offsets[i + 1] && NextEntryOffset() <= |contents|
            && contents[valueStart..valueStart + valueLength] == lay.entries[i].value
            && InRestart(i))
    }

    /** Entry `i` is in the current restart block, or the first after it. */
    ghost predicate InRestart(i: nat)
      requires Ready() && i <= |lay.entries|
      reads this
    {
      && restartIndex < numRestarts && lay.offsets[lay.marks[restartIndex]] <= lay.offsets[i]
      && (restartIndex + 1 < numRestarts ==> lay.offsets[i] <= lay.offsets[lay.marks[restartIndex + 1]])
    }

    ghost predicate HasShared(i: nat)
      requires i < |lay.entries| == |lay.shared|
      reads this
    {
      && lay.shared[i] <= |key| && lay.shared[i] <= |lay.entries[i].key|
      && key[..lay.shared[i]] == lay.entries[i].key[..lay.shared[i]]
    }

    /** The next entry to parse is entry `i`, and the key has what it shares. */
    ghost predicate Poised(i: nat)
      requires Ready()
      reads this
    {
      && i <= |lay.entries| && NextEntryOffset() == lay.offsets[i]
      && restartIndex < numRestarts && lay.offsets[lay.marks[restartIndex]] <= lay.offsets[i]
      && (i < |lay.entries| ==> HasShared(i))
    }

    predicate Valid()
      reads this
    {
      current < restarts
    }

    function NextEntryOffset(): nat
      reads this
    {
      valueStart + valueLength
    }

    lemma ValidAt(i: nat)
      requires Ready() && At(i)
      ensures Valid() <==> i < |lay.entries|
    {
      OffsetsIncrease(Data(), lay, i, |lay.entries|);
    }

    /** From an entry the next one can be parsed. */
    lemma AtIsPoised(i: nat)
      requires Ready() && At(i) && i < |lay.entries|
      ensures Poised(i + 1)
    {
      if i + 1 < |lay.entries| { assert EntryOk(Data(), lay, i + 1); }
      OffsetsIncrease(Data(), lay, i, i + 1);
    }

    method SeekToRestartPoint(index: nat)
      requires Ready() && index < numRestarts
      modifies this
      ensures Poised(lay.marks[index]) && restartIndex == index
    {
      key := [];
      restartIndex := index;
      valueStart, valueLength := GetRestartPoint(index), 0;
    }

    method ParseNextKey(ghost i: nat) returns (more: bool)
      requires Ready() && Poised(i)
      modifies this
      ensures At(i) && more == (i < |lay.entries|)
    {
      current := NextEntryOffset();
      OffsetsIncrease(Data(), lay, i, |lay.entries|);
      LastOffset(Data(), lay);
      if current >= restarts {
        current := restarts;
        restartIndex := numRestarts;
        return false;
      }
      DecodeCurrent(i);
      while restartIndex + 1 < numRestarts && GetRestartPoint(restartIndex + 1) < current
        modifies this`restartIndex
        invariant restartIndex < numRestarts && lay.offsets[lay.marks[restartIndex]] <= current
      {
        restartIndex := restartIndex + 1;
      }
      more := true;
    }

    method SeekToFirst()
      requires Ready()
      modifies this
      ensures At(0)
    {
      SeekToRestartPoint(0);
      var _ := ParseNextKey(0);
    }

    method SeekToLast()
      requires Ready()
      modifies this
      ensures At(if lay.entries == [] then 0 else |lay.entries| - 1)
    {
      hide Iter.Poised, Iter.InRestart;
      SeekToRestartPoint(numRestarts - 1);
      ghost var i := lay.marks[numRestarts - 1];
      var more := ParseNextKey(i);
      LastOffset(Data(), lay);
      while more && NextEntryOffset() < restarts
        invariant i <= |lay.entries| && At(i) && more == (i < |lay.entries|)
        invariant i < |lay.entries| || lay.entries == []
        decreases |lay.entries| - i
      {
        OffsetsIncrease(Data(), lay, i + 1, |lay.entries|);
        AtIsPoised(i);
        i := i + 1;
        more := ParseNextKey(i);
      }
      if i < |lay.entries| { OffsetsIncrease(Data(), lay, i + 1, |lay.entries|); }
    }

    method Next(ghost i: nat)
      requires Ready() && At(i) && i < |lay.entries|
      modifies this
      ensures At(i + 1)
    {
      AtIsPoised(i);
      var _ := ParseNextKey(i + 1);
    }

    /** Finds the restart point before the current entry and parses up to the entry before it. */
    method Prev(ghost i: nat)
      requires Ready() && At(i) && i < |lay.entries|
      modifies this
      ensures At(if i == 0 then |lay.entries| else i - 1)
    {
      var original := current;
      var found := BackToRestart(i);
      if found {
        ghost var j := lay.marks[restartIndex];
        SeekToRestartPoint(restartIndex);
        ParseUpTo(original, j, i);
      }
    }

    method BackToRestart(ghost i: nat) returns (found: bool)
      requires Ready() && At(i) && i < |lay.entries|
      modifies this`current, this`restartIndex
      ensures found == (i > 0)
      ensures found ==> restartIndex < numRestarts && lay.marks[restartIndex] < i
      ensures !found ==> At(|lay.entries|)
    {
      var original := current;
      LastOffset(Data(), lay);
      while GetRestartPoint(restartIndex) >= original
        invariant current == original == lay.offsets[i] && InRestart(i)
        decreases restartIndex
      {
        if restartIndex == 0 {
          OffsetsIncrease(Data(), lay, 0, i);
          current := restarts;
          restartIndex := numRestarts;
          return false;
        }
        RestartBefore(restartIndex, i);
        restartIndex := restartIndex - 1;
      }
      MarkBefore(lay.marks[restartIndex], i);
      found := true;
    }

    /** Parses until the end of the current entry meets the start of entry `i`. */
    method ParseUpTo(original: nat, ghost first: nat, ghost i: nat)
      requires Ready() && first < i < |lay.entries| && original == lay.offsets[i] && Poised(first)
      modifies this
      ensures At(i - 1)
    {
      hide Iter.Poised, Iter.InRestart;
      ghost var j := first;
      var more := ParseNextKey(j);
      OffsetsIncrease(Data(), lay, j + 1, i);
      while more && NextEntryOffset() < original
        invariant j < i && At(j) && more
        decreases i - j
      {
        AtIsPoised(j);
        MarkBefore(j + 1, i);
        j := j + 1;
        more := ParseNextKey(j);
      }
      OffsetsIncrease(Data(), lay, j + 1, i);
    }

    lemma MarkBefore(j: nat, i: nat)
      requires Ready() && j <= |lay.entries| && i <= |lay.entries| && lay.offsets[j] < lay.offsets[i]
      ensures j < i
    {
      if i <= j { OffsetsIncrease(Data(), lay, i, j); }
    }

    lemma RestartBefore(index: nat, i: nat)
      requires Ready() && 0 < index < numRestarts && i <= |lay.entries|
      requires lay.offsets[i] <= lay.offsets[lay.marks[index]]
      requires lay.offsets[lay.marks[index]] <= lay.offsets[i]
      ensures lay.offsets[lay.marks[index - 1]] <= lay.offsets[i]
    {
      OffsetsIncrease(Data(), lay, lay.marks[index - 1], lay.marks[index]);
    }

    /** The key at a restart point is stored whole. */
    method KeyAtRestart(index: nat) returns (k: Bytes)
      requires Ready() && index < numRestarts && lay.marks[index] < |lay.entries|
      ensures k == lay.entries[lay.marks[index]].key
    {
      hide DecodeEntry;
      ParseEntry(Data(), lay, lay.marks[index]);
      var h := DecodeEntry(contents[..restarts][GetRestartPoint(index)..]).value;
      k := h.rest[..h.nonShared];
    }

    /** Binary search for the last restart point before the target. */
    method FindRestart(target: Bytes) returns (left: nat)
      requires Ready()
      ensures left < numRestarts && (left == 0 || before(lay.entries[lay.marks[left]].key, target))
    {
      left := 0;
      var right: nat := numRestarts - 1;
      while left < right
        invariant left <= right < numRestarts
        invariant left == 0 || before(lay.entries[lay.marks[left]].key, target)
        decreases right - left
      {
        var mid := (left + right + 1) / 2;
        var midKey := KeyAtRestart(mid);
        if before(midKey, target) {
          left := mid;
        } else {
          right := mid - 1;
        }
      }
    }

    /** Every entry before a restart point before the target is before the target. */
    lemma RestartIsBefore(left: nat, target: Bytes)
      requires Ready() && Transitive(before) && KeysIncrease(lay.entries, before)
      requires left < numRestarts && (left == 0 || before(lay.entries[lay.marks[left]].key, target))
      ensures forall j :: 0 <= j < lay.marks[left] ==> before(lay.entries[j].key, target)
    {
    }

    /** From the restart point found, a scan for the first key at or after the target. */
    method Seek(target: Bytes) returns (ghost i: nat)
      requires Ready() && Transitive(before) && KeysIncrease(lay.entries, before)
      modifies this
      ensures IsFirstAtOrAfter(lay.entries, before, target, i) && At(i)
    {
      hide LayoutOk, Iter.Poised, Iter.InRestart, Transitive, KeysIncrease;
      var left := FindRestart(target);
      RestartIsBefore(left, target);
      SeekToRestartPoint(left);
      i := lay.marks[left];
      var more := ParseNextKey(i);
      while more && before(key, target)
        invariant i <= |lay.entries| && At(i) && more == (i < |lay.entries|)
        invariant forall j :: 0 <= j < i ==> before(lay.entries[j].key, target)
        decreases |lay.entries| - i
      {
        AtIsPoised(i);
        i := i + 1;
        more := ParseNextKey(i);
      }
    }

    /** Decodes the entry at `current`. */
    method DecodeCurrent(ghost i: nat)
      requires Ready() && i < |lay.entries| && current == lay.offsets[i] < restarts
      requires HasShared(i)
      modifies this`key, this`valueStart, this`valueLength
      ensures key == lay.entries[i].key && NextEntryOffset() == lay.offsets[i + 1] <= |contents|
      ensures contents[valueStart..valueStart + valueLength] == lay.entries[i].value
    {
      hide DecodeEntry;
      ParseEntry(Data(), lay, i);
      var h := DecodeEntry(contents[..restarts][current..]).value;
      ghost var e, s := lay.entries[i], lay.shared[i];
      ghost var tail := Data()[lay.offsets[i + 1]..];
      assert h.rest == e.key[s..] + e.value + tail;
      assert EntryOk(Data(), lay, i);
      EntryEnds(s, e);
      assert |EncodeEntry(s, e)| == lay.offsets[i + 1] - lay.offsets[i] && |tail| == restarts - lay.offsets[i + 1];
      key := key[..h.shared] + h.rest[..h.nonShared];
      valueStart, valueLength := restarts - |h.rest| + h.nonShared, h.valueLength;
      assert key == e.key;
      assert |h.rest| == |e.key| - s + |e.value| + |tail|;
      ValueIs(h.rest, e.key[s..], e.value, tail, i);
    }

    lemma ValueIs(rest: Bytes, delta: Bytes, value: Bytes, tail: Bytes, i: nat)
      requires Ready() && i < |lay.entries| && rest == delta + value + tail
      requires lay.offsets[i + 1] <= restarts && tail == Data()[lay.offsets[i + 1]..]
      requires |rest| <= restarts && EntryOk(Data(), lay, i) && delta == lay.entries[i].key[lay.shared[i]..]
      requires value == lay.entries[i].value
      ensures var start := restarts - |rest| + |delta|;
              start + |value| == lay.offsets[i + 1] && contents[start..start + |value|] == value
    {
      var end := lay.offsets[i + 1];
      var start := end - |value|;
      var entry := EncodeEntry(lay.shared[i], lay.entries[i]);
      EntryEnds(lay.shared[i], lay.entries[i]);
      assert entry[|entry| - |value|..] == value;
      assert Data()[lay.offsets[i]..end] == entry;
      assert contents[start..end] == Data()[lay.offsets[i]..end][|entry| - |value|..];
    }
  }

  /** What a builder was given is what an iterator over its block goes through. */
  method ReadBack(builder: BlockBuilder, before: Order) returns (read: seq<KV>)
    requires builder.Valid() && |builder.buffer| + 4 * |builder.restarts| + 4 < TWO_32
    ensures read == builder.Entries()
  {
    hide LayoutOk, BuilderOk, IsBlock, Iter.Poised, Iter.InRestart, Iter.Ready;
    var contents := builder.Finish();
    ghost var entries := builder.Entries();
    ghost var data, points, lay :| IsBlock(contents, data, points, lay) && lay.entries == entries;
    var iter := new Iter(contents, before, data, points, lay);
    read := [];
    ghost var i := 0;
    iter.SeekToFirst();
    iter.ValidAt(0);
    while iter.Valid()
      invariant fresh(iter) && iter.Ready() && iter.lay.entries == entries && iter.At(i) && i <= |entries|
      invariant iter.Valid() <==> i < |entries|
      invariant read == entries[..i]
      decreases |entries| - i
    {
      read := read + [KV(iter.key, iter.contents[iter.valueStart..iter.valueStart + iter.valueLength])];
      iter.Next(i);
      i := i + 1;
      iter.ValidAt(i);
    }
    assert entries[..|entries|] == entries;
  }

  lemma EntryEnds(s: nat, e: KV)
    requires s <= |e.key| && Fits(e)
    ensures var b := EncodeEntry(s, e); |b| >= |e.key| - s + |e.value| && b[|b| - |e.value|..] == e.value
  {
    hide Varint;
  }
}
