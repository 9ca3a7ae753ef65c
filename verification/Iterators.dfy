/**
 * The cursor every iterator of the engine is meant to be (include/leveldb/iterator.h), and the one over a sorted
 * run of entries (db/version_set.cc, LevelFileNumIterator).
 */
module Iterators {
  import opened InternalKeys
  import opened Lookup

  // A cursor over a sorted run is a position in it; the position past the end means that it is not valid.

  function FirstPos(run: seq<Entry>): nat { 0 }

  function LastPos(run: seq<Entry>): nat { if run == [] then 0 else |run| - 1 }

  function NextPos(run: seq<Entry>, pos: nat): nat
    requires pos < |run|
  {
    pos + 1
  }

  function PrevPos(run: seq<Entry>, pos: nat): nat
    requires pos < |run|
  {
    if pos == 0 then |run| else pos - 1
  }

  /** Keys strictly increase in the comparator's order. */
  ghost predicate Increasing(run: seq<Entry>) {
    forall i, j :: 0 <= i < j < |run| ==> Before(run[i].key, run[j].key)
  }

  lemma SeekIndexIs(run: seq<Entry>, target: InternalKey, i: nat)
    requires i <= |run| && forall k :: 0 <= k < i ==> Before(run[k].key, target)
    requires i < |run| ==> !Before(run[i].key, target)
    ensures SeekIndex(run, target) == i
  {
    var j := SeekIndex(run, target);
  }

  class RunIterator {
    var run: seq<Entry>
    var index: nat

    constructor (run: seq<Entry>)
      ensures this.run == run && index == |run|
    {
      this.run := run;
      index := |run|;
    }

    /** Takes up another run, at no entry of it. */
    method Set(run: seq<Entry>)
      modifies this
      ensures this.run == run && index == |run|
    {
      this.run := run;
      index := |run|;
    }

    predicate Valid()
      reads this
    {
      index < |run|
    }

    function Key(): InternalKey
      requires Valid()
      reads this
    {
      run[index].key
    }

    function Value(): Bytes
      requires Valid()
      reads this
    {
      run[index].value
    }

    method Seek(target: InternalKey)
      requires Increasing(run)
      modifies this`index
      ensures index == SeekIndex(run, target)
    {
      var left, right := 0, |run|;
      while left < right
        invariant 0 <= left <= right <= |run|
        invariant forall k :: 0 <= k < left ==> Before(run[k].key, target)
        invariant forall k :: right <= k < |run| ==> !Before(run[k].key, target)
      {
        var mid := (left + right) / 2;
        if Before(run[mid].key, target) {
          left := mid + 1;
        } else {
          right := mid;
        }
      }
      index := right;
      SeekIndexIs(run, target, index);
    }

    method SeekToFirst()
      modifies this`index
      ensures index == FirstPos(run)
    {
      index := 0;
    }

    method SeekToLast()
      modifies this`index
      ensures index == LastPos(run)
    {
      index := if run == [] then 0 else |run| - 1;
    }

    method Next()
      requires Valid()
      modifies this`index
      ensures index == NextPos(run, old(index))
    {
      index := index + 1;
    }

    method Prev()
      requires Valid()
      modifies this`index
      ensures index == PrevPos(run, old(index))
    {
      if index == 0 {
        index := |run|;
      } else {
        index := index - 1;
      }
    }
  }
}
