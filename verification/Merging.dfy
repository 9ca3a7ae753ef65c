/** The merging iterator (table/merger.cc): a cursor over the sorted union of its children's runs. */
module Merging {
  import opened Wrappers
  import opened InternalKeys
  import opened Lookup
  import opened InternalIterators
  import opened Iterators

  /** `merged` holds the entries of all runs, in order; no key occurs twice. */
  ghost predicate IsMerge(runs: seq<seq<Entry>>, merged: seq<Entry>) {
    && Increasing(merged)
    && (forall i :: 0 <= i < |runs| ==> Increasing(runs[i]))
    && (forall i, k :: 0 <= i < |runs| && 0 <= k < |runs[i]| ==> runs[i][k] in merged)
    && (forall e :: e in merged ==> exists i :: 0 <= i < |runs| && e in runs[i])
    && (forall i, j, k, l :: 0 <= i < j < |runs| && 0 <= k < |runs[i]| && 0 <= l < |runs[j]| ==>
          runs[i][k].key != runs[j][l].key)
  }

  /** The first `counts[i]` entries of each run are the first `q` of the union. */
  ghost predicate IsCut(runs: seq<seq<Entry>>, merged: seq<Entry>, counts: seq<nat>, q: nat) {
    && |counts| == |runs| && q <= |merged| && (forall i :: 0 <= i < |runs| ==> counts[i] <= |runs[i]|)
    && forall i, k :: 0 <= i < |runs| && 0 <= k < |runs[i]| ==> (k < counts[i] <==> runs[i][k] in merged[..q])
  }

  /** In the merge, an entry is among the first `q` exactly if its key is before the key at `q`. */
  lemma PrefixByKey(merged: seq<Entry>, q: nat, e: Entry)
    requires Increasing(merged) && q < |merged| && e in merged
    ensures e in merged[..q] <==> Before(e.key, merged[q].key)
    ensures e in merged[..q + 1] <==> !Before(merged[q].key, e.key)
  {
    var j :| 0 <= j < |merged| && merged[j] == e;
    if j < q { assert merged[..q][j] == e; }
    if j <= q { assert merged[..q + 1][j] == e; }
    forall i | 0 <= i < q
      ensures merged[..q][i] == merged[i]
    {
    }
  }

  lemma PrefixBySeek(merged: seq<Entry>, target: InternalKey, e: Entry)
    requires Increasing(merged) && e in merged
    ensures e in merged[..SeekIndex(merged, target)] <==> Before(e.key, target)
  {
    var q := SeekIndex(merged, target);
    var j :| 0 <= j < |merged| && merged[j] == e;
    if j < q {
      assert merged[..q][j] == e;
    } else {
      assert !Before(merged[q].key, target);
      assert j > q ==> Before(merged[q].key, merged[j].key);
      forall i | 0 <= i < q
        ensures merged[..q][i] != e
      {
        assert merged[..q][i] == merged[i] && Before(merged[i].key, target);
      }
    }
  }

  /** The smallest of the entries at the given positions, `None` when every run is used up. */
  ghost predicate IsSmallest(runs: seq<seq<Entry>>, at: seq<nat>, c: Option<nat>)
    requires |at| == |runs|
  {
    match c
    case None => forall i :: 0 <= i < |runs| ==> at[i] >= |runs[i]|
    case Some(c) =>
      c < |runs| && at[c] < |runs[c]| &&
      forall i :: 0 <= i < |runs| && at[i] < |runs[i]| ==> !Before(runs[i][at[i]].key, runs[c][at[c]].key)
  }

  ghost predicate IsLargest(runs: seq<seq<Entry>>, at: seq<nat>, c: Option<nat>)
    requires |at| == |runs|
  {
    match c
    case None => forall i :: 0 <= i < |runs| ==> at[i] >= |runs[i]|
    case Some(c) =>
      c < |runs| && at[c] < |runs[c]| &&
      forall i :: 0 <= i < |runs| && at[i] < |runs[i]| ==> !Before(runs[c][at[c]].key, runs[i][at[i]].key)
  }

  /** The run and position of an entry of the union. */
  lemma Source(runs: seq<seq<Entry>>, merged: seq<Entry>, q: nat) returns (i: nat, k: nat)
    requires IsMerge(runs, merged) && q < |merged|
    ensures i < |runs| && k < |runs[i]| && runs[i][k] == merged[q]
  {
    assert merged[q] in merged;
    i :| i < |runs| && merged[q] in runs[i];
    k :| k < |runs[i]| && runs[i][k] == merged[q];
  }

  lemma SameKey(merged: seq<Entry>, q: nat, e: Entry)
    requires Increasing(merged) && q < |merged| && e in merged
    requires !Before(e.key, merged[q].key) && !Before(merged[q].key, e.key)
    ensures e == merged[q]
  {
    var j :| 0 <= j < |merged| && merged[j] == e;
  }

  lemma NotBefore(run: seq<Entry>, i: nat, j: nat)
    requires Increasing(run) && i <= j < |run|
    ensures !Before(run[j].key, run[i].key)
  {
    assert i < j ==> Before(run[i].key, run[j].key);
  }

  /** After a cut, the smallest next entry of the runs is the next entry of the union. */
  lemma SmallestAtCut(runs: seq<seq<Entry>>, merged: seq<Entry>, at: seq<nat>, q: nat, c: Option<nat>)
    requires IsMerge(runs, merged) && IsCut(runs, merged, at, q) && IsSmallest(runs, at, c)
    ensures c.None? <==> q == |merged|
    ensures c.Some? ==> q < |merged| && runs[c.value][at[c.value]] == merged[q]
  {
    match c
    case None =>
      hide IsMerge, IsCut;
      if q < |merged| { var i, k := NextSource(runs, merged, at, q); }
      if q == |merged| {}
    case Some(c) =>
      NotYet(runs, merged, at, q, c);
      assert Increasing(merged) && forall i :: 0 <= i < |runs| ==> Increasing(runs[i]);
      hide IsMerge, IsCut;
      var i, k := NextSource(runs, merged, at, q);
      SmallestIsNext(runs[i], merged, q, k, at[i], runs[c][at[c]]);
  }

  lemma NotYet(runs: seq<seq<Entry>>, merged: seq<Entry>, at: seq<nat>, q: nat, c: nat)
    requires IsMerge(runs, merged) && IsCut(runs, merged, at, q) && c < |runs| && at[c] < |runs[c]|
    ensures runs[c][at[c]] in merged && runs[c][at[c]] !in merged[..q] && q < |merged|
  {
    assert merged[..|merged|] == merged;
  }

  lemma NextSource(runs: seq<seq<Entry>>, merged: seq<Entry>, at: seq<nat>, q: nat) returns (i: nat, k: nat)
    requires IsMerge(runs, merged) && IsCut(runs, merged, at, q) && q < |merged|
    ensures i < |runs| && at[i] <= k < |runs[i]| && runs[i][k] == merged[q]
  {
    i, k := Source(runs, merged, q);
    PrefixByKey(merged, q, merged[q]);
  }

  lemma SmallestIsNext(run: seq<Entry>, merged: seq<Entry>, q: nat, k: nat, at: nat, least: Entry)
    requires Increasing(merged) && Increasing(run) && q < |merged| && at <= k < |run| && run[k] == merged[q]
    requires least in merged && least !in merged[..q] && !Before(run[at].key, least.key)
    ensures least == merged[q]
  {
    NotBefore(run, at, k);
    PrefixByKey(merged, q, least);
    SameKey(merged, q, least);
  }

  /** Before a cut, the largest entry of the runs is the last one of the union. */
  lemma LargestAtCut(runs: seq<seq<Entry>>, merged: seq<Entry>, at: seq<nat>, q: nat, c: Option<nat>)
    requires IsMerge(runs, merged) && |at| == |runs|
    requires IsCut(runs, merged, Counts(runs, at), q) && IsLargest(runs, at, c)
    ensures c.None? <==> q == 0
    ensures c.Some? ==> runs[c.value][at[c.value]] == merged[q - 1]
  {
    match c
    case None =>
      if q > 0 { var i, k := LastSource(runs, merged, at, q); }
    case Some(c) =>
      CountedIsBefore(runs, merged, at, q, c, at[c]);
      var i, k := LastSource(runs, merged, at, q);
      LargestIsLast(runs[i], merged, q, k, at[i], runs[c][at[c]]);
  }

  lemma LastSource(runs: seq<seq<Entry>>, merged: seq<Entry>, at: seq<nat>, q: nat) returns (i: nat, k: nat)
    requires IsMerge(runs, merged) && |at| == |runs| && IsCut(runs, merged, Counts(runs, at), q) && q > 0
    ensures i < |runs| && k <= at[i] < |runs[i]| && runs[i][k] == merged[q - 1]
  {
    i, k := Source(runs, merged, q - 1);
    assert merged[..q][q - 1] == merged[q - 1];
    CountedIsBefore(runs, merged, at, q, i, k);
  }

  lemma CountedIsBefore(runs: seq<seq<Entry>>, merged: seq<Entry>, at: seq<nat>, q: nat, i: nat, k: nat)
    requires |at| == |runs| && IsCut(runs, merged, Counts(runs, at), q) && i < |runs| && k < |runs[i]|
    ensures runs[i][k] in merged[..q] <==> k <= at[i] < |runs[i]|
  {
    assert Counts(runs, at)[i] == if at[i] < |runs[i]| then at[i] + 1 else 0;
  }

  lemma LargestIsLast(run: seq<Entry>, merged: seq<Entry>, q: nat, k: nat, at: nat, largest: Entry)
    requires Increasing(merged) && Increasing(run) && 0 < q <= |merged| && k <= at < |run| && run[k] == merged[q - 1]
    requires largest in merged[..q] && !Before(largest.key, run[at].key)
    ensures largest == merged[q - 1]
  {
    NotBefore(run, k, at);
    PrefixByKey(merged, q - 1, largest);
    SameKey(merged, q - 1, largest);
  }

  /** How many entries lie at or before a position, none if it is not valid. */
  function Counts(runs: seq<seq<Entry>>, at: seq<nat>): seq<nat>
    requires |at| == |runs|
  {
    seq(|runs|, i requires 0 <= i < |runs| => if at[i] < |runs[i]| then at[i] + 1 else 0)
  }

  /** The first entry after `key` is at `p`. */
  ghost predicate AfterKey(run: seq<Entry>, p: nat, key: InternalKey) {
    p <= |run| && forall k :: 0 <= k < |run| ==> (k < p <==> !Before(key, run[k].key))
  }

  /** The last entry before `key` is at `p`, which is past the end if there is none. */
  ghost predicate BeforeKey(run: seq<Entry>, p: nat, key: InternalKey) {
    p <= |run| && forall k :: 0 <= k < |run| ==> ((p < |run| && k <= p) <==> Before(run[k].key, key))
  }

  /** The current entry is only in the current child. */
  lemma OnlyInCurrent(runs: seq<seq<Entry>>, merged: seq<Entry>, at: seq<nat>, q: nat, c: nat, i: nat, k: nat)
    requires IsMerge(runs, merged) && |at| == |runs| && c < |runs| && at[c] < |runs[c]| && q < |merged|
    requires runs[c][at[c]] == merged[q] && i < |runs| && k < |runs[i]| && i != c
    ensures runs[i][k].key != merged[q].key
    ensures runs[i][k] in merged[..q + 1] <==> runs[i][k] in merged[..q]
  {
    assert merged[..q + 1] == merged[..q] + [merged[q]];
  }

  lemma SwitchedForward(runs: seq<seq<Entry>>, merged: seq<Entry>, at: seq<nat>, q: nat, c: nat)
    requires IsMerge(runs, merged) && |at| == |runs| && c < |runs| && at[c] < |runs[c]| && q < |merged|
    requires runs[c][at[c]] == merged[q]
    requires forall i :: 0 <= i < |runs| && i != c ==> AfterKey(runs[i], at[i], merged[q].key)
    ensures IsCut(runs, merged, at, q)
  {
    forall i, k | 0 <= i < |runs| && 0 <= k < |runs[i]|
      ensures k < at[i] <==> runs[i][k] in merged[..q]
    {
      PrefixByKey(merged, q, runs[i][k]);
      if i != c { OnlyInCurrent(runs, merged, at, q, c, i, k); }
    }
  }

  lemma SwitchedReverse(runs: seq<seq<Entry>>, merged: seq<Entry>, at: seq<nat>, q: nat, c: nat)
    requires IsMerge(runs, merged) && |at| == |runs| && c < |runs| && at[c] < |runs[c]| && q < |merged|
    requires runs[c][at[c]] == merged[q]
    requires forall i :: 0 <= i < |runs| && i != c ==> BeforeKey(runs[i], at[i], merged[q].key)
    ensures IsCut(runs, merged, Counts(runs, at), q + 1)
  {
    forall i, k | 0 <= i < |runs| && 0 <= k < |runs[i]|
      ensures k < Counts(runs, at)[i] <==> runs[i][k] in merged[..q + 1]
    {
      PrefixByKey(merged, q, runs[i][k]);
      if i != c { OnlyInCurrent(runs, merged, at, q, c, i, k); }
    }
  }

  /** Moving the current child on moves the cut on. */
  lemma CutAdvances(runs: seq<seq<Entry>>, merged: seq<Entry>, at: seq<nat>, q: nat, c: nat)
    requires IsMerge(runs, merged) && IsCut(runs, merged, at, q) && IsCurrent(runs, merged, at, q, c)
    ensures IsCut(runs, merged, at[c := at[c] + 1], q + 1)
  {
    var at2 := at[c := at[c] + 1];
    forall i, k | 0 <= i < |runs| && 0 <= k < |runs[i]|
      ensures k < at2[i] <==> runs[i][k] in merged[..q + 1]
    {
      PrefixByKey(merged, q, runs[i][k]);
      if i != c { OnlyInCurrent(runs, merged, at, q, c, i, k); }
    }
  }

  lemma CutRetreats(runs: seq<seq<Entry>>, merged: seq<Entry>, at: seq<nat>, q: nat, c: nat)
    requires IsMerge(runs, merged) && |at| == |runs| && IsCut(runs, merged, Counts(runs, at), q + 1)
    requires c < |runs| && at[c] < |runs[c]| && q < |merged| && runs[c][at[c]] == merged[q]
    ensures IsCut(runs, merged, Counts(runs, at[c := PrevPos(runs[c], at[c])]), q)
  {
    CountsRetreat(runs, at, c);
    CutCountsRetreat(runs, merged, at, Counts(runs, at), q, c);
  }

  lemma CutCountsRetreat(runs: seq<seq<Entry>>, merged: seq<Entry>, at: seq<nat>, counts: seq<nat>, q: nat, c: nat)
    requires IsMerge(runs, merged) && |at| == |runs| && IsCut(runs, merged, counts, q + 1)
    requires c < |runs| && at[c] < |runs[c]| && q < |merged| && counts[c] == at[c] + 1
    requires runs[c][at[c]] == merged[q]
    ensures IsCut(runs, merged, counts[c := at[c]], q)
  {
    var counts2 := counts[c := at[c]];
    forall i, k | 0 <= i < |runs| && 0 <= k < |runs[i]|
      ensures k < counts2[i] <==> runs[i][k] in merged[..q]
    {
      PrefixByKey(merged, q, runs[i][k]);
      if i != c { OnlyInCurrent(runs, merged, at, q, c, i, k); }
    }
  }

  lemma CountsRetreat(runs: seq<seq<Entry>>, at: seq<nat>, c: nat)
    requires |at| == |runs| && c < |runs| && at[c] < |runs[c]|
    ensures Counts(runs, at[c := PrevPos(runs[c], at[c])]) == Counts(runs, at)[c := at[c]]
  {
  }

  ghost predicate IsCurrent(runs: seq<seq<Entry>>, merged: seq<Entry>, at: seq<nat>, q: nat, c: nat) {
    |at| == |runs| && c < |runs| && at[c] < |runs[c]| && q < |merged| && runs[c][at[c]] == merged[q]
  }

  lemma RunBySeek(run: seq<Entry>, target: InternalKey, k: nat)
    requires Increasing(run) && k < |run|
    ensures k < SeekIndex(run, target) <==> Before(run[k].key, target)
  {
    var p := SeekIndex(run, target);
    if k > p { assert Before(run[p].key, run[k].key); }
  }

  lemma EntryOfMerge(runs: seq<seq<Entry>>, merged: seq<Entry>, i: nat, k: nat)
    requires IsMerge(runs, merged) && i < |runs| && k < |runs[i]|
    ensures Increasing(merged) && Increasing(runs[i]) && runs[i][k] in merged
  {
  }

  lemma SeekCuts(runs: seq<seq<Entry>>, merged: seq<Entry>, at: seq<nat>, target: InternalKey)
    requires IsMerge(runs, merged) && |at| == |runs|
    requires forall i :: 0 <= i < |runs| ==> at[i] == SeekIndex(runs[i], target)
    ensures IsCut(runs, merged, at, SeekIndex(merged, target))
  {
    hide IsMerge, SeekIndex, Increasing, Before;
    forall i, k | 0 <= i < |runs| && 0 <= k < |runs[i]|
      ensures k < at[i] <==> runs[i][k] in merged[..SeekIndex(merged, target)]
    {
      EntryOfMerge(runs, merged, i, k);
      PrefixBySeek(merged, target, runs[i][k]);
      RunBySeek(runs[i], target, k);
    }
  }

  ghost function RunsOf(children: seq<InternalIterator>): seq<seq<Entry>> {
    seq(|children|, i requires 0 <= i < |children| => children[i].run)
  }

  /** No two children share an object. */
  ghost predicate Separate(children: seq<InternalIterator>) {
    forall i, j :: 0 <= i < j < |children| ==> children[i].Repr() !! children[j].Repr()
  }

  ghost function Footprint(children: seq<InternalIterator>): set<object> {
    set i, o | 0 <= i < |children| && o in children[i].Repr() :: o
  }

  lemma InFootprint(children: seq<InternalIterator>, i: nat)
    requires i < |children|
    ensures children[i].Repr() <= Footprint(children)
  {
  }

  lemma ChildrenInFootprint(children: seq<InternalIterator>)
    ensures forall c :: c in children ==> c in Footprint(children)
  {
    forall c | c in children
      ensures c in Footprint(children)
    {
      var i :| 0 <= i < |children| && children[i] == c;
      assert c in children[i].Repr();
    }
  }

  lemma NoneCut(runs: seq<seq<Entry>>, merged: seq<Entry>, at: seq<nat>)
    requires |at| == |runs| && forall i :: 0 <= i < |runs| ==> at[i] == 0
    ensures IsCut(runs, merged, at, 0)
  {
  }

  lemma AllCut(runs: seq<seq<Entry>>, merged: seq<Entry>, at: seq<nat>)
    requires IsMerge(runs, merged) && |at| == |runs| && forall i :: 0 <= i < |runs| ==> at[i] == LastPos(runs[i])
    ensures IsCut(runs, merged, Counts(runs, at), |merged|)
  {
    assert merged[..|merged|] == merged;
  }

  datatype Move =
    | ToFirst | ToLast | To(target: InternalKey) | Past(key: InternalKey) | Short(key: InternalKey) | Forward | Backward

  /** Where a move takes a cursor. */
  ghost predicate MovedTo(run: seq<Entry>, from: nat, move: Move, to: nat) {
    match move
    case ToFirst => to == FirstPos(run)
    case ToLast => to == LastPos(run)
    case To(target) => to == SeekIndex(run, target)
    case Past(key) => AfterKey(run, to, key)
    case Short(key) => BeforeKey(run, to, key)
    case Forward => from < |run| && to == NextPos(run, from)
    case Backward => from < |run| && to == PrevPos(run, from)
  }

  class MergingIterator {
    const children: seq<InternalIterator>
    var current: Option<nat>     // the index of the current child
    var forward: bool
    ghost const run: seq<Entry>  // the union
    ghost var index: nat         // the position in it

    constructor (children: seq<InternalIterator>, ghost merged: seq<Entry>)
      requires Separate(children) && IsMerge(RunsOf(children), merged)
      requires forall i :: 0 <= i < |children| ==> children[i].Ok()
      ensures Inv() && this.children == children && run == merged && current == None && index == |run|
    {
      this.children, run := children, merged;
      current, forward, index := None, true, |merged|;
    }

    /** The runs of the children. */
    ghost function Runs(): seq<seq<Entry>> { RunsOf(children) }

    ghost function Repr(): set<object> { {this} + Footprint(children) }

    ghost function At(): seq<nat>
      reads children
    {
      seq(|children|, i requires 0 <= i < |children| reads children => children[i].index)
    }

    ghost predicate Shape() {
      Separate(children) && this !in Footprint(children) && IsMerge(Runs(), run)
    }

    ghost predicate Ok()
      reads Footprint(children)
    {
      Shape() && forall i :: 0 <= i < |children| ==> children[i].Ok()
    }

    /** The children stand around the current entry, which is in the current child. */
    ghost predicate Stands(forward: bool)
      reads this`current, this`index, children
    {
      match current
      case None => index == |run|
      case Some(c) =>
        && c < |children| && children[c].OnEntry() && index < |run| && run[index] == children[c].run[children[c].index]
        && if forward then IsCut(Runs(), run, At(), index) else IsCut(Runs(), run, Counts(Runs(), At()), index + 1)
    }

    ghost predicate Inv()
      reads Repr()
    {
      ChildrenInFootprint(children);
      Ok() && Stands(forward)
    }

    ghost predicate OnEntry()
      reads this
    {
      index < |run|
    }

    predicate Valid()
      requires Inv()
      reads Repr()
      ensures Valid() == OnEntry()
    {
      current.Some?
    }

    function Key(): (k: InternalKey)
      requires Inv() && OnEntry()
      reads Repr()
      ensures k == run[index].key
    {
      children[current.value].Key()
    }

    function Value(): (v: Bytes)
      requires Inv() && OnEntry()
      reads Repr()
      ensures v == run[index].value
    {
      children[current.value].Value()
    }

    lemma CutIsMerge()
      requires Ok()
      ensures IsMerge(Runs(), run)
    {
    }

    /** The children stand after the first `q` entries; the smallest becomes current. */
    method FindSmallest(ghost q: nat)
      requires Ok() && IsCut(Runs(), run, At(), q)
      modifies this`current, this`index
      ensures Ok() && Stands(true) && index == q && IsSmallest(Runs(), At(), current)
    {
      Apart();
      hide InternalIterator.Repr, MergingIterator.Ok, Footprint, IsCut, IsSmallest, MergingIterator.Stands, Counts;
      var smallest := SmallestChild();
      current, index := smallest, q;
      StandsAtSmallest(q);
    }

    lemma StandsAtSmallest(q: nat)
      requires Ok() && IsCut(Runs(), run, At(), q)
      requires IsSmallest(Runs(), At(), current) && index == q
      ensures Stands(true)
    {
      hide InternalIterator.Repr, InternalIterator.Ok, Footprint, IsCut, IsMerge, Counts;
      SmallestAtCut(Runs(), run, At(), q, current);
    }

    method SmallestChild() returns (smallest: Option<nat>)
      requires Ok()
      ensures Ok() && IsSmallest(Runs(), At(), smallest)
    {
      hide MergingIterator.Shape;
      smallest := None;
      for i := 0 to |children|
        invariant smallest.None? ==> forall k :: 0 <= k < i ==> !children[k].OnEntry()
        invariant smallest.Some? ==> smallest.value < i && children[smallest.value].OnEntry()
        invariant smallest.Some? ==> forall k :: 0 <= k < i && children[k].OnEntry() ==>
          !Before(Runs()[k][At()[k]].key, Runs()[smallest.value][At()[smallest.value]].key)
      {
        if children[i].Valid() {
          if smallest.None? {
            smallest := Some(i);
          } else {
            if Before(children[i].Key(), children[smallest.value].Key()) {
              smallest := Some(i);
            }
          }
        }
      }
    }

    /** The children stand on the last of the first `q` entries; the largest becomes current. */
    method FindLargest(ghost q: nat)
      requires Ok() && q <= |run| && IsCut(Runs(), run, Counts(Runs(), At()), q)
      modifies this`current, this`index
      ensures Ok() && Stands(false) && index == (if q == 0 then |run| else q - 1) && IsLargest(Runs(), At(), current)
    {
      Apart();
      hide InternalIterator.Repr, MergingIterator.Ok, Footprint, IsCut, IsLargest, MergingIterator.Stands, Counts;
      var largest := LargestChild();
      current, index := largest, if q == 0 then |run| else q - 1;
      StandsAtLargest(q);
    }

    lemma StandsAtLargest(q: nat)
      requires Ok() && q <= |run| && IsCut(Runs(), run, Counts(Runs(), At()), q)
      requires IsLargest(Runs(), At(), current) && index == (if q == 0 then |run| else q - 1)
      ensures Stands(false)
    {
      hide InternalIterator.Repr, InternalIterator.Ok, Footprint, IsCut, IsMerge, Counts;
      LargestAtCut(Runs(), run, At(), q, current);
    }

    method LargestChild() returns (largest: Option<nat>)
      requires Ok()
      ensures Ok() && IsLargest(Runs(), At(), largest)
    {
      hide MergingIterator.Shape;
      largest := None;
      for i := |children| downto 0
        invariant largest.None? ==> forall k :: i <= k < |children| ==> !children[k].OnEntry()
        invariant largest.Some? ==> i <= largest.value < |children| && children[largest.value].OnEntry()
        invariant largest.Some? ==> forall k :: i <= k < |children| && children[k].OnEntry() ==>
          !Before(Runs()[largest.value][At()[largest.value]].key, Runs()[k][At()[k]].key)
      {
        if children[i].Valid() {
          if largest.None? {
            largest := Some(i);
          } else {
            if Before(children[largest.value].Key(), children[i].Key()) {
              largest := Some(i);
            }
          }
        }
      }
    }

    method SeekToFirst()
      requires Inv()
      modifies Repr()
      ensures Inv() && index == FirstPos(run)
    {
      Apart();
      hide InternalIterator.Repr, MergingIterator.Ok, Footprint, IsCut, MergingIterator.Stands, IsMerge, SeekIndex;
      hide Increasing, Counts;
      for i := 0 to |children|
        invariant Ok() && forall k :: 0 <= k < i ==> children[k].index == 0
      {
        MoveChild(i, ToFirst);
      }
      NoneCut(Runs(), run, At());
      FindSmallest(0);
      forward := true;
    }

    method SeekToLast()
      requires Inv()
      modifies Repr()
      ensures Inv() && index == LastPos(run)
    {
      Apart();
      assert LastPos(run) == if |run| == 0 then |run| else |run| - 1;
      hide InternalIterator.Repr, MergingIterator.Ok, Footprint, IsCut, MergingIterator.Stands, IsMerge, LastPos;
      hide Increasing, Counts;
      for i := 0 to |children|
        invariant Ok() && forall k :: 0 <= k < i ==> children[k].index == LastPos(children[k].run)
      {
        MoveChild(i, ToLast);
      }
      CutIsMerge();
      AllCut(Runs(), run, At());
      FindLargest(|run|);
      forward := false;
    }

    method Seek(target: InternalKey)
      requires Inv()
      modifies Repr()
      ensures Inv() && index == SeekIndex(run, target)
    {
      Apart();
      hide InternalIterator.Repr, MergingIterator.Ok, Footprint, IsCut, MergingIterator.Stands, IsMerge, SeekIndex;
      hide Increasing, Counts;
      for i := 0 to |children|
        invariant Ok() && forall k :: 0 <= k < i ==> children[k].index == SeekIndex(children[k].run, target)
      {
        MoveChild(i, To(target));
      }
      CutIsMerge();
      SeekCuts(Runs(), run, At(), target);
      FindSmallest(SeekIndex(run, target));
      forward := true;
    }

    /** The children are apart from the iterator and from each other. */
    lemma Apart()
      requires Ok()
      ensures this !in Footprint(children) && forall k :: 0 <= k < |children| ==> children[k] != this as object
    {
      ChildrenInFootprint(children);
    }

    lemma ChildApart(i: nat)
      requires Ok() && i < |children|
      ensures Shape() && children[i].Ok() && children[i].Repr() <= Footprint(children)
      ensures forall k :: 0 <= k < |children| && k != i ==> children[k].Ok() && children[k].Repr() !! children[i].Repr()
    {
      hide InternalIterator.Repr, InternalIterator.Ok, IsMerge;
    }

    /** Moves one child; the others stay where they are. */
    method MoveChild(i: nat, move: Move)
      requires Ok() && i < |children| && (move == Forward || move == Backward ==> children[i].OnEntry())
      modifies Footprint(children)
      ensures Ok() && MovedTo(children[i].run, old(children[i].index), move, children[i].index)
      ensures forall k :: 0 <= k < |children| && k != i ==> children[k].index == old(children[k].index)
    {
      hide InternalIterator.Ok, MergingIterator.Shape, MergingIterator.Ok, Footprint, MovedTo;
      ChildApart(i);
      Step(children[i], move);
      forall k | 0 <= k < |children|
        ensures children[k].Ok()
      {
        if k != i { assert old(children[k].Ok()); }
      }
      AllOk();
    }

    lemma AllOk()
      requires Shape() && forall k :: 0 <= k < |children| ==> children[k].Ok()
      ensures Ok()
    {
    }

    static method Step(child: InternalIterator, move: Move)
      requires child.Ok() && (move == Forward || move == Backward ==> child.OnEntry())
      modifies child.Repr()
      ensures child.Ok() && MovedTo(child.run, old(child.index), move, child.index)
    {
      match move {
        case ToFirst => child.SeekToFirst();
        case ToLast => child.SeekToLast();
        case To(target) => child.Seek(target);
        case Past(key) => SeekAfter(child, key);
        case Short(key) => SeekBefore(child, key);
        case Forward => child.Next();
        case Backward => child.Prev();
      }
    }

    /** Moves a child to its first entry after the key. */
    static method SeekAfter(child: InternalIterator, key: InternalKey)
      requires child.Ok()
      modifies child.Repr()
      ensures child.Ok() && AfterKey(child.run, child.index, key)
    {
      child.Seek(key);
      if child.Valid() && !Before(child.Key(), key) && !Before(key, child.Key()) {
        child.Next();
      }
    }

    /** Moves a child to its last entry before the key. */
    static method SeekBefore(child: InternalIterator, key: InternalKey)
      requires child.Ok()
      modifies child.Repr()
      ensures child.Ok() && BeforeKey(child.run, child.index, key)
    {
      child.Seek(key);
      if child.Valid() {
        child.Prev();
      } else {
        child.SeekToLast();
      }
    }

    lemma CurrentChild()
      requires Inv() && current.Some?
      ensures Ok() && IsMerge(Runs(), run) && IsCurrent(Runs(), run, At(), index, current.value)
      ensures current.value < |children| && children[current.value].OnEntry() && this !in Footprint(children)
      ensures if forward then IsCut(Runs(), run, At(), index) else IsCut(Runs(), run, Counts(Runs(), At()), index + 1)
    {
    }

    lemma StandsForward()
      requires Ok() && current.Some? && current.value < |children| && children[current.value].OnEntry()
      requires index < |run| && run[index] == children[current.value].run[children[current.value].index]
      requires forall k :: 0 <= k < |children| && k != current.value ==>
        AfterKey(children[k].run, children[k].index, run[index].key)
      ensures Stands(true)
    {
      SwitchedForward(Runs(), run, At(), index, current.value);
    }

    /** Positions the other children after the current key. */
    method SwitchForward()
      requires Inv() && current.Some?
      modifies this`forward, Footprint(children)
      ensures Inv() && forward
      ensures children[current.value].index == old(children[current.value].index)
    {
      hide InternalIterator.Repr, MergingIterator.Ok, Footprint, IsCut, MergingIterator.Stands, IsMerge, Increasing;
      hide Counts, AfterKey, BeforeKey;
      CurrentChild();
      var c := current.value;
      var key := Key();
      for i := 0 to |children|
        invariant Ok() && children[c].index == old(children[c].index)
        invariant forall k :: 0 <= k < i && k != c ==> AfterKey(children[k].run, children[k].index, key)
      {
        if i != c {
          MoveChild(i, Past(key));
        }
      }
      forward := true;
      StandsForward();
    }

    lemma StandsReverse()
      requires Ok() && current.Some? && current.value < |children| && children[current.value].OnEntry()
      requires index < |run| && run[index] == children[current.value].run[children[current.value].index]
      requires forall k :: 0 <= k < |children| && k != current.value ==>
        BeforeKey(children[k].run, children[k].index, run[index].key)
      ensures Stands(false)
    {
      SwitchedReverse(Runs(), run, At(), index, current.value);
    }

    /** Positions the other children before the current key. */
    method SwitchReverse()
      requires Inv() && current.Some?
      modifies this`forward, Footprint(children)
      ensures Inv() && !forward
      ensures children[current.value].index == old(children[current.value].index)
    {
      hide InternalIterator.Repr, MergingIterator.Ok, Footprint, IsCut, MergingIterator.Stands, IsMerge, Increasing;
      hide Counts, AfterKey, BeforeKey;
      CurrentChild();
      var c := current.value;
      var key := Key();
      for i := 0 to |children|
        invariant Ok() && children[c].index == old(children[c].index)
        invariant forall k :: 0 <= k < i && k != c ==> BeforeKey(children[k].run, children[k].index, key)
      {
        if i != c {
          MoveChild(i, Short(key));
        }
      }
      forward := false;
      StandsReverse();
    }

    /** Moves the current child on. */
    method StepChild()
      requires Inv() && current.Some? && forward
      modifies Footprint(children)
      ensures Ok() && index < |run| && IsCut(Runs(), run, At(), index + 1)
    {
      hide MergingIterator.Inv, AfterKey, BeforeKey, SeekIndex, InternalIterator.Repr, MergingIterator.Ok;
      hide Footprint, IsCut, MergingIterator.Stands, IsMerge, Increasing, Counts;
      CurrentChild();
      ghost var c, at := current.value, At();
      MoveChild(current.value, Forward);
      CutAdvances(Runs(), run, at, index, c);
      assert At() == at[c := at[c] + 1];
    }

    /** Moves the current child back. */
    method StepChildBack()
      requires Inv() && current.Some? && !forward
      modifies Footprint(children)
      ensures Ok() && index < |run| && IsCut(Runs(), run, Counts(Runs(), At()), index)
    {
      hide MergingIterator.Inv, AfterKey, BeforeKey, SeekIndex, InternalIterator.Repr, MergingIterator.Ok;
      hide Footprint, IsCut, MergingIterator.Stands, IsMerge, Increasing, Counts;
      CurrentChild();
      ghost var c, at := current.value, At();
      MoveChild(current.value, Backward);
      CutRetreats(Runs(), run, at, index, c);
      assert At() == at[c := PrevPos(Runs()[c], at[c])];
    }

    method Next()
      requires Inv() && OnEntry()
      modifies Repr()
      ensures Inv() && index == NextPos(run, old(index))
    {
      Apart();
      assert Valid();
      hide InternalIterator.Repr, MergingIterator.Ok, Footprint, IsCut, MergingIterator.Stands, IsMerge, Increasing;
      hide Counts;
      if !forward {
        SwitchForward();
      }
      StepChild();
      FindSmallest(index + 1);
    }

    method Prev()
      requires Inv() && OnEntry()
      modifies Repr()
      ensures Inv() && index == PrevPos(run, old(index))
    {
      Apart();
      assert Valid();
      hide InternalIterator.Repr, MergingIterator.Ok, Footprint, IsCut, MergingIterator.Stands, IsMerge, Increasing;
      hide Counts;
      if forward {
        SwitchReverse();
      }
      StepChildBack();
      FindLargest(index);
    }
  }
}
