/** Blocks of prefix-compressed entries with restart points (table/block_builder.cc, table/block.cc). */
module Blocks {
  import opened Wrappers
  import opened InternalKeys
  import opened Coding

  datatype KV = KV(key: Bytes, value: Bytes)

  // One entry

  ghost predicate Fits(e: KV) { |e.key| < TWO_32 && |e.value| < TWO_32 }

  /** An entry that shares the first bytes of its key with the key before. */
  function EncodeEntry(shared: nat, e: KV): (b: Bytes)
    requires shared <= |e.key| && |e.key| < TWO_32 && |e.value| < TWO_32
  {
    Varint(shared) + (Varint(|e.key| - shared) + (Varint(|e.value|) + (e.key[shared..] + e.value)))
  }

  datatype Header = Header(shared: nat, nonShared: nat, valueLength: nat, rest: Bytes)

  function DecodeHeader(b: Bytes): Option<Header> {
    match GetVarint32(b)
    case None => None
    case Some(shared) =>
      match GetVarint32(shared.rest)
      case None => None
      case Some(nonShared) =>
        match GetVarint32(nonShared.rest)
        case None => None
        case Some(length) => Some(Header(shared.value, nonShared.value, length.value, length.rest))
  }

  /** DecodeEntry; the sum of the lengths wraps around at 32 bits. */
  function DecodeEntry(b: Bytes): Option<Header> {
    if |b| < 3 then None
    else
      match DecodeHeader(b)
      case None => None
      case Some(h) => if |h.rest| < (h.nonShared + h.valueLength) % TWO_32 then None else Some(h)
  }

  lemma HeaderRoundTrip(shared: U32, nonShared: U32, length: U32, rest: Bytes)
    ensures DecodeHeader(Varint(shared) + (Varint(nonShared) + (Varint(length) + rest)))
            == Some(Header(shared, nonShared, length, rest))
  {
    hide GetVarint32, Varint;
    Varint32RoundTrip(shared, Varint(nonShared) + (Varint(length) + rest));
    Varint32RoundTrip(nonShared, Varint(length) + rest);
    Varint32RoundTrip(length, rest);
  }

  lemma EntryRoundTrip(shared: nat, e: KV, rest: Bytes)
    requires shared <= |e.key| && Fits(e) && |e.key| + |e.value| < TWO_32
    ensures DecodeEntry(EncodeEntry(shared, e) + rest)
            == Some(Header(shared, |e.key| - shared, |e.value|, e.key[shared..] + e.value + rest))
  {
    hide Varint, DecodeHeader;
    var a, b, c, d := Varint(shared), Varint(|e.key| - shared), Varint(|e.value|), e.key[shared..] + e.value;
    assert EncodeEntry(shared, e) + rest == a + (b + (c + (d + rest)));
    HeaderRoundTrip(shared, |e.key| - shared, |e.value|, d + rest);
    VarintIsLong(shared);
    VarintIsLong(|e.key| - shared);
    VarintIsLong(|e.value|);
  }

  lemma VarintIsLong(v: nat)
    ensures |Varint(v)| >= 1
  {
  }

  /** The fast path of DecodeEntry: three lengths of one byte each. */
  lemma SmallHeader(b: Bytes)
    requires |b| >= 3 && b[0] < 128 && b[1] < 128 && b[2] < 128
    ensures DecodeHeader(b) == Some(Header(b[0], b[1], b[2], b[3..]))
  {
    assert b[1..][1..] == b[2..] && b[2..][1..] == b[3..];
  }

  // The layout of a block

  /**
   * Where the entries of a block are: entry `i` is at `offsets[i]` and shares the first `shared[i]` bytes of its key
   * with the entry before; the entries listed in `marks` are restart points.
   */
  datatype Layout = Layout(entries: seq<KV>, offsets: seq<nat>, shared: seq<nat>, marks: seq<nat>)

  ghost predicate EntryOk(data: Bytes, lay: Layout, i: nat)
    requires i < |lay.entries| && |lay.offsets| == |lay.entries| + 1 && |lay.shared| == |lay.entries|
  {
    var e, s := lay.entries[i], lay.shared[i];
    && Fits(e) && |e.key| + |e.value| < TWO_32 && s <= |e.key|
    && (if i == 0 then s == 0 else s <= |lay.entries[i - 1].key| && lay.entries[i - 1].key[..s] == e.key[..s])
    && lay.offsets[i] < lay.offsets[i + 1] <= |data|
    && data[lay.offsets[i]..lay.offsets[i + 1]] == EncodeEntry(s, e)
  }

  ghost predicate EntriesOk(data: Bytes, lay: Layout) {
    && |lay.offsets| == |lay.entries| + 1 && |lay.shared| == |lay.entries|
    && lay.offsets[0] == 0 && lay.offsets[|lay.entries|] == |data|
    && forall i :: 0 <= i < |lay.entries| ==> EntryOk(data, lay, i)
  }

  ghost predicate MarksOk(lay: Layout) {
    && |lay.shared| == |lay.entries| && lay.marks != [] && lay.marks[0] == 0
    && (forall j, k :: 0 <= j < k < |lay.marks| ==> lay.marks[j] < lay.marks[k])
    && (forall j :: 0 <= j < |lay.marks| ==>
          lay.marks[j] <= |lay.entries| && (lay.marks[j] < |lay.entries| ==> lay.shared[lay.marks[j]] == 0))
    && (forall j :: 0 < j < |lay.marks| ==> lay.marks[j] < |lay.entries|)
  }

  ghost predicate LayoutOk(data: Bytes, lay: Layout) { EntriesOk(data, lay) && MarksOk(lay) }

  /** The offsets of the restart points. */
  ghost predicate RestartsAre(restarts: seq<nat>, lay: Layout)
    requires MarksOk(lay) && |lay.offsets| == |lay.entries| + 1
  {
    |restarts| == |lay.marks| && forall j :: 0 <= j < |restarts| ==> restarts[j] == lay.offsets[lay.marks[j]]
  }

  lemma {:induction false} OffsetsIncrease(data: Bytes, lay: Layout, i: nat, j: nat)
    requires EntriesOk(data, lay) && i <= j <= |lay.entries|
    ensures lay.offsets[i] <= lay.offsets[j] <= |data| && (i < j ==> lay.offsets[i] < lay.offsets[j])
    decreases j - i
  {
    if j > 0 { assert EntryOk(data, lay, j - 1); }
    if i < j {
      assert EntryOk(data, lay, i);
      OffsetsIncrease(data, lay, i + 1, j);
    }
  }

  // Building

  /** One more entry at the end, restarting or not. */
  ghost function Extended(data: Bytes, lay: Layout, e: KV, s: nat, restart: bool): Layout
    requires s <= |e.key| && Fits(e)
  {
    Layout(lay.entries + [e], lay.offsets + [|data| + |EncodeEntry(s, e)|], lay.shared + [s],
           if restart then lay.marks + [|lay.entries|] else lay.marks)
  }

  ghost predicate MayExtend(lay: Layout, e: KV, s: nat, restart: bool) {
    && Fits(e) && |e.key| + |e.value| < TWO_32 && s <= |e.key|
    && (if lay.entries == [] then s == 0 && !restart
        else s <= |lay.entries[|lay.entries| - 1].key| && lay.entries[|lay.entries| - 1].key[..s] == e.key[..s])
    && (restart ==> s == 0)
  }

  lemma ExtendedEntriesOk(data: Bytes, lay: Layout, e: KV, s: nat, restart: bool)
    requires EntriesOk(data, lay) && MayExtend(lay, e, s, restart)
    ensures EntriesOk(data + EncodeEntry(s, e), Extended(data, lay, e, s, restart))
  {
    hide EncodeEntry;
    var more, n := EncodeEntry(s, e), |lay.entries|;
    var data2, lay2 := data + more, Extended(data, lay, e, s, restart);
    EncodedIsLong(s, e);
    forall i | 0 <= i < |lay2.entries|
      ensures EntryOk(data2, lay2, i)
    {
      if i < n {
        assert EntryOk(data, lay, i);
        assert data2[lay.offsets[i]..lay.offsets[i + 1]] == data[lay.offsets[i]..lay.offsets[i + 1]];
      } else {
        assert data2[|data|..|data2|] == more;
      }
    }
  }

  lemma EncodedIsLong(s: nat, e: KV)
    requires s <= |e.key| && Fits(e)
    ensures |EncodeEntry(s, e)| > 0
  {
    VarintIsLong(s);
  }

  lemma ExtendedMarksOk(data: Bytes, lay: Layout, e: KV, s: nat, restart: bool)
    requires MarksOk(lay) && MayExtend(lay, e, s, restart)
    requires lay.marks[|lay.marks| - 1] < |lay.entries| || lay.entries == []
    ensures MarksOk(Extended(data, lay, e, s, restart))
  {
    hide EncodeEntry;
    var lay2 := Extended(data, lay, e, s, restart);
    forall j | 0 <= j < |lay2.marks|
      ensures lay2.marks[j] < |lay2.entries| && lay2.shared[lay2.marks[j]] == 0
    {
      if j < |lay.marks| {
        assert lay.marks[j] <= lay.marks[|lay.marks| - 1];
      }
    }
  }

  class BlockBuilder {
    const interval: nat  // Options::block_restart_interval
    var buffer: Bytes
    var restarts: seq<nat>
    var counter: nat
    var lastKey: Bytes
    ghost var layout: Layout

    /** The entries added. */
    ghost function Entries(): seq<KV>
      reads this
    {
      layout.entries
    }

    ghost predicate Valid()
      reads this
    {
      BuilderOk(interval, buffer, restarts, counter, lastKey, layout)
    }

    constructor (interval: nat)
      requires interval >= 1
      ensures Valid() && Entries() == [] && this.interval == interval
    {
      this.interval := interval;
      buffer, restarts, counter, lastKey := [], [0], 0, [];
      layout := Layout([], [0], [], [0]);
    }

    method Add(key: Bytes, value: Bytes)
      requires Valid() && |key| + |value| < TWO_32
      modifies this
      ensures Valid() && Entries() == old(Entries()) + [KV(key, value)]
    {
      hide EncodeEntry, Varint, BuilderOk;
      var shared := 0;
      ghost var restart := counter >= interval;
      ghost var data, lay, e := buffer, layout, KV(key, value);
      if counter < interval {
        shared := Sharing(key);
      } else {
        restarts := restarts + [|buffer|];
        counter := 0;
      }
      var nonShared := |key| - shared;
      buffer := buffer + Varint(shared);
      buffer := buffer + Varint(nonShared);
      buffer := buffer + Varint(|value|);
      buffer := buffer + key[shared..];
      buffer := buffer + value;
      EntryAppended(data, shared, e);
      lastKey := lastKey[..shared] + key[shared..];
      assert lastKey == key;
      counter := counter + 1;
      layout := Extended(data, lay, e, shared, restart);
      AddKeepsOk(interval, data, old(restarts), old(counter), old(lastKey), lay, e, shared);
    }

    /** How many bytes the key shares with the last one. */
    method Sharing(key: Bytes) returns (shared: nat)
      ensures shared <= |lastKey| && shared <= |key| && lastKey[..shared] == key[..shared]
      ensures shared < |lastKey| && shared < |key| ==> lastKey[shared] != key[shared]
    {
      shared := 0;
      var minLength := if |lastKey| < |key| then |lastKey| else |key|;
      while shared < minLength && lastKey[shared] == key[shared]
        invariant shared <= minLength && lastKey[..shared] == key[..shared]
      {
        assert lastKey[..shared + 1] == lastKey[..shared] + [lastKey[shared]];
        assert key[..shared + 1] == key[..shared] + [key[shared]];
        shared := shared + 1;
      }
    }

    predicate Empty()
      reads this
    {
      buffer == []
    }

    lemma EmptyIfNothingAdded()
      requires Valid()
      ensures Empty() <==> Entries() == []
    {
      if Entries() != [] { OffsetsIncrease(buffer, layout, 0, |layout.entries|); }
    }

    function CurrentSizeEstimate(): nat
      reads this
    {
      |buffer| + 4 * |restarts| + 4
    }

    /** The restart points and their number go behind the entries, cut to 32 bits. */
    method Finish() returns (contents: Bytes)
      requires Valid()
      ensures |contents| == CurrentSizeEstimate() && (|contents| < TWO_32 ==> Contains(contents, Entries()))
    {
      hide Fixed, EntriesOk, Spaced;
      contents := buffer;
      for i := 0 to |restarts|
        invariant contents == buffer + Points(restarts[..i])
      {
        PointsExtend(restarts, i);
        contents := contents + Fixed(restarts[i], 4);
        assert buffer + Points(restarts[..i]) + Fixed(restarts[i], 4) == buffer + Points(restarts[..i + 1]);
      }
      assert restarts[..|restarts|] == restarts;
      contents := contents + Fixed(|restarts|, 4);
      if |contents| < TWO_32 {
        RestartFits(buffer, layout, restarts);
        assert IsBlock(contents, buffer, restarts, layout);
      }
    }

    method Reset()
      requires Valid()
      modifies this
      ensures Valid() && Entries() == []
    {
      buffer, restarts, counter, lastKey := [], [0], 0, [];
      layout := Layout([], [0], [], [0]);
    }
  }

  ghost predicate BuilderOk(interval: nat, buffer: Bytes, restarts: seq<nat>, counter: nat, lastKey: Bytes, lay: Layout) {
    && interval >= 1 && LayoutOk(buffer, lay) && RestartsAre(restarts, lay)
    && lastKey == (if lay.entries == [] then [] else lay.entries[|lay.entries| - 1].key)
    && counter <= interval && |lay.entries| == lay.marks[|lay.marks| - 1] + counter
    && Spaced(lay, interval)
  }

  lemma AddKeepsOk(interval: nat, buffer: Bytes, restarts: seq<nat>, counter: nat, lastKey: Bytes, lay: Layout, e: KV,
                   s: nat)
    requires BuilderOk(interval, buffer, restarts, counter, lastKey, lay)
    requires Fits(e) && |e.key| + |e.value| < TWO_32
    requires s <= |e.key| && s <= |lastKey| && lastKey[..s] == e.key[..s] && (counter >= interval ==> s == 0)
    ensures var restart := counter >= interval;
            BuilderOk(interval, buffer + EncodeEntry(s, e), if restart then restarts + [|buffer|] else restarts,
                      if restart then 1 else counter + 1, e.key, Extended(buffer, lay, e, s, restart))
  {
    hide EncodeEntry;
    var restart := counter >= interval;
    ExtendedEntriesOk(buffer, lay, e, s, restart);
    ExtendedMarksOk(buffer, lay, e, s, restart);
    hide EntriesOk;
    LastOffset(buffer, lay);
    SpacedOn(lay, interval);
  }

  lemma SpacedOn(lay: Layout, interval: nat)
    requires Spaced(lay, interval) && lay.marks != []
    ensures lay.marks[|lay.marks| - 1] + interval == |lay.marks| * interval
  {
    var n := |lay.marks| - 1;
    assert lay.marks[n] == n * interval;
    assert (n + 1) * interval == n * interval + interval;
  }

  /** Every interval holds the same number of entries. */
  ghost predicate Spaced(lay: Layout, interval: nat) {
    forall j :: 0 <= j < |lay.marks| ==> lay.marks[j] == j * interval
  }

  lemma EntryAppended(data: Bytes, s: nat, e: KV)
    requires s <= |e.key| && Fits(e)
    ensures data + Varint(s) + Varint(|e.key| - s) + Varint(|e.value|) + e.key[s..] + e.value == data + EncodeEntry(s, e)
  {
    hide Varint;
    Appended(data, Varint(s), Varint(|e.key| - s), Varint(|e.value|), e.key[s..], e.value);
  }

  lemma LastOffset(data: Bytes, lay: Layout)
    requires EntriesOk(data, lay)
    ensures |lay.offsets| == |lay.entries| + 1 && |lay.shared| == |lay.entries| && lay.offsets[|lay.entries|] == |data|
  {
  }

  lemma Appended(a: Bytes, b: Bytes, c: Bytes, d: Bytes, e: Bytes, f: Bytes)
    ensures a + b + c + d + e + f == a + (b + (c + (d + (e + f))))
  {
  }

  /** The restart points as they are stored. */
  function Points(restarts: seq<nat>): (b: Bytes)
    ensures |b| == 4 * |restarts|
  {
    if restarts == [] then [] else Points(restarts[..|restarts| - 1]) + Fixed(restarts[|restarts| - 1], 4)
  }

  /** A finished block. */
  ghost predicate IsBlock(contents: Bytes, data: Bytes, restarts: seq<nat>, lay: Layout) {
    && LayoutOk(data, lay) && RestartsAre(restarts, lay) && |contents| < TWO_32
    && (forall r :: r in restarts ==> r < TWO_32) && |restarts| < TWO_32
    && contents == data + Points(restarts) + Fixed32(|restarts|)
  }

  ghost predicate Contains(contents: Bytes, entries: seq<KV>) {
    exists data, restarts, lay :: IsBlock(contents, data, restarts, lay) && lay.entries == entries
  }

  lemma RestartFits(data: Bytes, lay: Layout, restarts: seq<nat>)
    requires LayoutOk(data, lay) && RestartsAre(restarts, lay)
    ensures forall r :: r in restarts ==> r <= |data|
  {
    forall r | r in restarts
      ensures r <= |data|
    {
      var j :| 0 <= j < |restarts| && restarts[j] == r;
      OffsetsIncrease(data, lay, lay.marks[j], |lay.entries|);
    }
  }

  lemma PointsExtend(restarts: seq<nat>, i: nat)
    requires i < |restarts|
    ensures Points(restarts[..i + 1]) == Points(restarts[..i]) + Fixed(restarts[i], 4)
  {
    assert restarts[..i + 1][..i] == restarts[..i];
  }

  // Reading

  /** Where the restart points start, `None` if the contents are too short to be a block. */
  function RestartOffset(contents: Bytes): Option<nat> {
    if |contents| < 4 then None
    else
      var n := DecodeFixed(contents[|contents| - 4..]);
      if n > (|contents| - 4) / 4 then None else Some(|contents| - (1 + n) * 4)
  }

  function NumRestarts(contents: Bytes): nat
    requires |contents| >= 4
  {
    DecodeFixed(contents[|contents| - 4..])
  }

  function RestartPoint(contents: Bytes, restarts: nat, index: nat): nat
    requires restarts + 4 * index + 4 <= |contents|
  {
    DecodeFixed(contents[restarts + 4 * index..restarts + 4 * index + 4])
  }

  lemma {:induction false} PointAt(restarts: seq<nat>, j: nat)
    requires j < |restarts|
    ensures Points(restarts)[4 * j..4 * j + 4] == Fixed(restarts[j], 4)
    decreases |restarts|
  {
    hide Fixed;
    var front := restarts[..|restarts| - 1];
    if j < |front| {
      PointAt(front, j);
      assert Points(restarts)[4 * j..4 * j + 4] == Points(front)[4 * j..4 * j + 4];
    }
  }

  /** A finished block is taken apart again. */
  lemma BlockParses(contents: Bytes, data: Bytes, restarts: seq<nat>, lay: Layout)
    requires IsBlock(contents, data, restarts, lay)
    ensures RestartOffset(contents) == Some(|data|) && NumRestarts(contents) == |restarts| && contents[..|data|] == data
    ensures |data| + 4 * |restarts| + 4 == |contents|
    ensures forall j :: 0 <= j < |restarts| ==> RestartPoint(contents, |data|, j) == restarts[j]
  {
    hide Fixed, DecodeFixed, EntriesOk, MarksOk;
    FixedInverts(|restarts|, 0);
    assert contents[|contents| - 4..] == Fixed32(|restarts|);
    forall j | 0 <= j < |restarts|
      ensures RestartPoint(contents, |data|, j) == restarts[j]
    {
      PointAt(restarts, j);
      assert restarts[j] in restarts;
      FixedInverts(restarts[j], 0);
      assert contents[|data| + 4 * j..|data| + 4 * j + 4] == Points(restarts)[4 * j..4 * j + 4];
    }
  }

  /** The entry at an offset is decoded, whatever follows it. */
  lemma ParseEntry(data: Bytes, lay: Layout, i: nat)
    requires EntriesOk(data, lay) && i < |lay.entries|
    ensures lay.offsets[i] < lay.offsets[i + 1] <= |data| && lay.shared[i] <= |lay.entries[i].key|
    ensures var e, s := lay.entries[i], lay.shared[i];
            DecodeEntry(data[lay.offsets[i]..])
            == Some(Header(s, |e.key| - s, |e.value|, e.key[s..] + e.value + data[lay.offsets[i + 1]..]))
    ensures lay.offsets[i + 1] == |data| - |data[lay.offsets[i + 1]..]|
  {
    hide EncodeEntry, DecodeEntry;
    assert EntryOk(data, lay, i);
    var e, s := lay.entries[i], lay.shared[i];
    assert data[lay.offsets[i]..] == EncodeEntry(s, e) + data[lay.offsets[i + 1]..];
    EntryRoundTrip(s, e, data[lay.offsets[i + 1]..]);
  }
}
