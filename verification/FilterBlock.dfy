/**
 * Filter blocks: one Bloom filter for the keys of all data blocks that start in the same two kilobytes of the file
 * (table/filter_block.cc).
 */
module FilterBlocks {
  import opened InternalKeys
  import opened Coding
  import opened Bloom
  import opened Blocks

  const FILTER_BASE_LG: Byte := 11
  const FILTER_BASE: nat := 2048

  /** The filter of some keys: their bits and the number of probes, or nothing at all for none. */
  ghost predicate IsFilterOf(hash: Hash, filter: Bytes, keys: seq<Bytes>) {
    if keys == [] then filter == []
    else |filter| >= 2 && filter[|filter| - 1] <= 30 && IsFilter(hash, keys, filter[..|filter| - 1], filter[|filter| - 1])
  }

  ghost predicate FilterOk(hash: Hash, result: Bytes, start: nat, limit: nat, keys: seq<Bytes>) {
    start <= limit <= |result| && IsFilterOf(hash, result[start..limit], keys)
  }

  /** A filter matches just the keys all probes of which are probes of its own keys, so it matches those. */
  lemma FilterMatches(hash: Hash, filter: Bytes, keys: seq<Bytes>, key: Bytes)
    requires IsFilterOf(hash, filter, keys)
    ensures key in keys ==> MayMatch(hash, key, filter)
    ensures MayMatch(hash, key, filter)
            <==> keys != [] && AllProbed(hash, keys, key, 8 * (|filter| - 1), filter[|filter| - 1])
  {
    if keys != [] {
      var bits, k := filter[..|filter| - 1], filter[|filter| - 1];
      assert filter == bits + [k];
      hide IsFilter, MayMatch, AllProbed;
      MatchesExactly(hash, keys, bits, k, key);
    }
  }

  /** The filters one after the other, each from its offset to the next. */
  ghost predicate FiltersOk(hash: Hash, result: Bytes, offsets: seq<nat>, groups: seq<seq<Bytes>>) {
    && |offsets| == |groups| + 1 && offsets[|groups|] == |result|
    && forall i :: 0 <= i < |groups| ==> FilterOk(hash, result, offsets[i], offsets[i + 1], groups[i])
  }

  lemma MoreResult(hash: Hash, result: Bytes, more: Bytes, start: nat, limit: nat, keys: seq<Bytes>)
    requires FilterOk(hash, result, start, limit, keys)
    ensures FilterOk(hash, result + more, start, limit, keys)
  {
    hide IsFilterOf;
    assert (result + more)[start..limit] == result[start..limit];
  }

  class FilterBlockBuilder {
    const hash: Hash
    const bitsPerKey: nat
    const k: nat
    var keys: seq<Bytes>           // the keys of the filter to come
    var result: Bytes
    var filterOffsets: seq<nat>
    ghost var groups: seq<seq<Bytes>>

    ghost predicate Valid()
      reads this
    {
      && 1 <= k <= 30 && |groups| == |filterOffsets|
      && FiltersOk(hash, result, filterOffsets + [|result|], groups)
    }

    constructor (hash: Hash, bitsPerKey: nat, k: nat)
      requires 1 <= k <= 30
      ensures Valid() && keys == [] && groups == []
    {
      this.hash, this.bitsPerKey, this.k := hash, bitsPerKey, k;
      keys, result, filterOffsets, groups := [], [], [], [];
    }

    method AddKey(key: Bytes)
      requires Valid()
      modifies `keys
      ensures Valid() && keys == old(keys) + [key]
    {
      keys := keys + [key];
    }

    method GenerateFilter()
      requires Valid()
      modifies this
      ensures Valid() && keys == [] && groups == old(groups) + [old(keys)]
    {
      hide IsFilterOf, IsFilter;
      ghost var was, offsets := result, filterOffsets + [|result|];
      filterOffsets := filterOffsets + [|result|];
      NoFilter(hash, was);
      if keys != [] {
        result := CreateFilter(hash, bitsPerKey, k, keys, result);
        Filters(hash, k, keys, was, result);
      }
      ghost var more := result[|was|..];
      assert result == was + more;
      forall i | 0 <= i < |groups|
        ensures FilterOk(hash, result, offsets[i], offsets[i + 1], groups[i])
      {
        MoreResult(hash, was, more, offsets[i], offsets[i + 1], groups[i]);
      }
      groups := groups + [keys];
      keys := [];
    }

    /** Called when a data block may start at the offset: its keys are to go into the filter of that offset. */
    method StartBlock(blockOffset: nat)
      requires Valid() && |groups| <= blockOffset / FILTER_BASE
      modifies this
      ensures Valid() && |groups| == blockOffset / FILTER_BASE && old(groups) <= groups
      ensures if |old(groups)| == |groups| then keys == old(keys)
              else keys == [] && groups[|old(groups)|] == old(keys)
    {
      var filterIndex := blockOffset / FILTER_BASE;
      while filterIndex > |filterOffsets|
        invariant Valid() && |groups| <= filterIndex && old(groups) <= groups
        invariant if |old(groups)| == |groups| then keys == old(keys) && groups == old(groups)
                  else keys == [] && groups[|old(groups)|] == old(keys)
      {
        GenerateFilter();
      }
    }

    method Finish() returns (contents: Bytes)
      requires Valid()
      modifies this
      ensures Valid() && keys == []
      ensures groups == old(groups) + if old(keys) == [] then [] else [old(keys)]
      ensures |contents| < TWO_32 ==> IsFilterBlock(contents, hash, groups)
    {
      if keys != [] {
        GenerateFilter();
      }
      contents := Layout();
      assert IsFilterBlockOf(contents, hash, groups, result, filterOffsets + [|result|]);
    }

    /** The offsets of the filters go behind them, then where the offsets start, then the base. */
    method Layout() returns (contents: Bytes)
      ensures contents == result + Points(filterOffsets + [|result|]) + [FILTER_BASE_LG]
    {
      hide Fixed;
      contents := result;
      for i := 0 to |filterOffsets|
        invariant contents == result + Points(filterOffsets[..i])
      {
        PointsExtend(filterOffsets, i);
        contents := contents + Fixed(filterOffsets[i], 4);
        assert result + Points(filterOffsets[..i]) + Fixed(filterOffsets[i], 4) == result + Points(filterOffsets[..i + 1]);
      }
      assert filterOffsets[..|filterOffsets|] == filterOffsets;
      ghost var offsets := filterOffsets + [|result|];
      assert offsets[..|filterOffsets|] == filterOffsets && offsets[..|filterOffsets| + 1] == offsets;
      PointsExtend(offsets, |filterOffsets|);
      ghost var points := Points(filterOffsets);
      contents := contents + Fixed(|result|, 4);
      assert result + points + Fixed(|result|, 4) == result + (points + Fixed(|result|, 4));
      contents := contents + [FILTER_BASE_LG];
    }
  }

  lemma NoFilter(hash: Hash, result: Bytes)
    ensures FilterOk(hash, result, |result|, |result|, [])
  {
  }

  lemma Filters(hash: Hash, k: nat, keys: seq<Bytes>, dst: Bytes, r: Bytes)
    requires dst <= r && |r| >= |dst| + 2 && r[|r| - 1] == k && 1 <= k <= 30 && keys != []
    requires IsFilter(hash, keys, r[|dst|..|r| - 1], k)
    ensures FilterOk(hash, r, |dst|, |r|, keys)
  {
    hide IsFilter;
    var filter := r[|dst|..|r|];
    assert filter[..|filter| - 1] == r[|dst|..|r| - 1] && filter[|filter| - 1] == r[|r| - 1];
  }

  ghost predicate IsFilterBlockOf(contents: Bytes, hash: Hash, groups: seq<seq<Bytes>>, result: Bytes,
                                  offsets: seq<nat>) {
    FiltersOk(hash, result, offsets, groups) && contents == result + Points(offsets) + [FILTER_BASE_LG]
  }

  ghost predicate IsFilterBlock(contents: Bytes, hash: Hash, groups: seq<seq<Bytes>>) {
    |contents| < TWO_32 && exists result, offsets :: IsFilterBlockOf(contents, hash, groups, result, offsets)
  }

  // Reading

  function Word(contents: Bytes, at: nat): nat
    requires at + 4 <= |contents|
  {
    DecodeFixed(contents[at..at + 4])
  }

  ghost predicate HasKey(groups: seq<seq<Bytes>>, blockOffset: nat, key: Bytes) {
    blockOffset / FILTER_BASE < |groups| && key in groups[blockOffset / FILTER_BASE]
  }

  /** A block at the offset was built with the key. */
  ghost predicate MustMatch(hash: Hash, contents: Bytes, blockOffset: nat, key: Bytes) {
    exists groups :: HasKey(groups, blockOffset, key) && IsFilterBlock(contents, hash, groups)
  }

  /** What a reader answers for a block at an offset: yes beyond the last filter, and else what the filter says. */
  ghost predicate IsAnswer(hash: Hash, groups: seq<seq<Bytes>>, blockOffset: nat, key: Bytes, may: bool) {
    if blockOffset / FILTER_BASE >= |groups| then may
    else exists filter :: IsFilterOf(hash, filter, groups[blockOffset / FILTER_BASE]) && may == MayMatch(hash, key, filter)
  }

  lemma MustBeTold(hash: Hash, contents: Bytes, blockOffset: nat, key: Bytes, may: bool)
    requires forall groups :: IsFilterBlock(contents, hash, groups) ==> IsAnswer(hash, groups, blockOffset, key, may)
    ensures MustMatch(hash, contents, blockOffset, key) ==> may
  {
    hide IsFilterBlock, MayMatch, IsFilterOf;
    if MustMatch(hash, contents, blockOffset, key) {
      var groups :| HasKey(groups, blockOffset, key) && IsFilterBlock(contents, hash, groups);
      assert IsAnswer(hash, groups, blockOffset, key, may);
      var keys := groups[blockOffset / FILTER_BASE];
      var filter :| IsFilterOf(hash, filter, keys) && may == MayMatch(hash, key, filter);
      FilterMatches(hash, filter, keys, key);
    }
  }

  /** What the block of the groups says about an offset, word for word. */
  ghost predicate Says(hash: Hash, contents: Bytes, groups: seq<seq<Bytes>>, index: nat) {
    && |contents| >= 5 && contents[|contents| - 1] == FILTER_BASE_LG
    && var size := Word(contents, |contents| - 5);
       && size <= |contents| - 5 && (|contents| - 5 - size) / 4 == |groups|
       && (index < |groups| ==>
             && size + 4 * index + 8 < |contents|
             && var start, limit := Word(contents, size + 4 * index), Word(contents, size + 4 * index + 4);
                start <= limit <= size && IsFilterOf(hash, contents[start..limit], groups[index]))
  }

  /** FilterBlockReader. Whatever does not look like a filter block may match everything. */
  method KeyMayMatch(hash: Hash, contents: Bytes, blockOffset: nat, key: Bytes) returns (may: bool)
    ensures MustMatch(hash, contents, blockOffset, key) ==> may
    ensures forall groups :: IsFilterBlock(contents, hash, groups) ==> IsAnswer(hash, groups, blockOffset, key, may)
  {
    hide MustMatch, IsFilterBlock;
    may := Answer(hash, contents, blockOffset, key);
    MustBeTold(hash, contents, blockOffset, key, may);
  }

  method Answer(hash: Hash, contents: Bytes, blockOffset: nat, key: Bytes) returns (may: bool)
    ensures forall groups :: IsFilterBlock(contents, hash, groups) ==> IsAnswer(hash, groups, blockOffset, key, may)
  {
    hide MayMatch, DecodeFixed, IsFilterBlock, IsFilterOf, Word;
    forall groups | IsFilterBlock(contents, hash, groups)
      ensures Says(hash, contents, groups, blockOffset / FILTER_BASE)
    {
      BlockSays(hash, contents, groups, blockOffset / FILTER_BASE);
    }
    var n := |contents|;
    if n < 5 {
      return true;
    }
    var lastWord := Word(contents, n - 5);
    if lastWord > n - 5 {
      return true;
    }
    var num := (n - 5 - lastWord) / 4;
    PowerIsPositive(contents[n - 1]);
    FilterBase();
    var index := blockOffset / Power(2, contents[n - 1]);
    if index < num {
      var start, limit := Word(contents, lastWord + index * 4), Word(contents, lastWord + index * 4 + 4);
      if start <= limit && limit <= lastWord {
        may := Bloom.KeyMayMatch(hash, key, contents[start..limit]);
        return;
      } else if start == limit {
        return false;
      }
    }
    may := true;
  }

  lemma {:induction false} PowerIsPositive(n: nat)
    ensures Power(2, n) > 0
  {
    if n > 0 { PowerIsPositive(n - 1); }
  }

  lemma BlockSays(hash: Hash, contents: Bytes, groups: seq<seq<Bytes>>, index: nat)
    requires IsFilterBlock(contents, hash, groups)
    ensures Says(hash, contents, groups, index)
  {
    hide IsFilterOf, Points, Word;
    var result, offsets :| IsFilterBlockOf(contents, hash, groups, result, offsets);
    BaseStored(contents, result, offsets, Points(offsets));
    OffsetStored(contents, result, offsets, Points(offsets), |groups|);
    if index < |groups| {
      var start, limit := offsets[index], offsets[index + 1];
      assert FilterOk(hash, result, start, limit, groups[index]);
      assert contents[start..limit] == result[start..limit];
      OffsetStored(contents, result, offsets, Points(offsets), index);
      OffsetStored(contents, result, offsets, Points(offsets), index + 1);
    }
  }

  ghost predicate IsLaidOut(contents: Bytes, result: Bytes, offsets: seq<nat>, points: Bytes) {
    contents == result + points + [FILTER_BASE_LG] && points == Points(offsets) && |contents| < TWO_32
  }

  lemma BaseStored(contents: Bytes, result: Bytes, offsets: seq<nat>, points: Bytes)
    requires IsLaidOut(contents, result, offsets, points)
    ensures |result| < TWO_32 && contents != [] && contents[|contents| - 1] == FILTER_BASE_LG
  {
    hide Points;
  }

  lemma OffsetStored(contents: Bytes, result: Bytes, offsets: seq<nat>, points: Bytes, i: nat)
    requires IsLaidOut(contents, result, offsets, points) && i < |offsets| && offsets[i] < TWO_32
    ensures |result| + 4 * i + 4 <= |contents| && Word(contents, |result| + 4 * i) == offsets[i]
    ensures |contents| == |result| + 4 * |offsets| + 1
  {
    hide Fixed, DecodeFixed, Points, Word;
    PointAt(offsets, i);
    WordAt(contents, result, points, |offsets|, i, offsets[i]);
  }

  lemma FilterBase()
    ensures Power(2, 11) == FILTER_BASE
  {
    assert Power(2, 11) == 2 * Power(2, 10) && Power(2, 10) == 4 * Power(2, 8) && Power(2, 8) == 256;
  }

  lemma WordAt(contents: Bytes, result: Bytes, points: Bytes, n: nat, i: nat, v: nat)
    requires contents == result + points + [FILTER_BASE_LG] && v < TWO_32 && |points| == 4 * n && i < n
    requires points[4 * i..4 * i + 4] == Fixed(v, 4)
    ensures |result| + 4 * i + 4 <= |contents| && Word(contents, |result| + 4 * i) == v
    ensures |contents| == |result| + 4 * n + 1
  {
    StoredWord(v);
    hide Fixed, DecodeFixed;
    WordInMiddle(contents, result, points, [FILTER_BASE_LG], 4 * i, Fixed(v, 4));
  }

  lemma WordInMiddle(contents: Bytes, a: Bytes, b: Bytes, c: Bytes, i: nat, word: Bytes)
    requires contents == a + b + c && i + 4 <= |b| && b[i..i + 4] == word
    ensures |a| + i + 4 <= |contents| && Word(contents, |a| + i) == DecodeFixed(word)
  {
    hide DecodeFixed;
    var at := |a| + i;
    assert contents[at..at + 4] == word;
  }

  lemma StoredWord(v: nat)
    requires v < TWO_32
    ensures DecodeFixed(Fixed(v, 4)) == v
  {
    Powers();
    FixedRoundTrip(v, 4);
  }
}
