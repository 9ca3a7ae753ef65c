/**
 * The iterator users see (db/db_iter.cc): a cursor over the live user keys of a snapshot, on top of a cursor over
 * internal entries.
 */
module DatabaseIterator {
  import opened Wrappers
  import opened InternalKeys
  import opened Lookup
  import opened CompactionReads
  import opened Iterators
  import opened Merging

  /** The entry at `i` is what a reader at snapshot `s` gets for its user key. */
  ghost predicate IsLive(run: seq<Entry>, s: nat, i: nat) {
    && i < |run| && run[i].key.seqno <= s && run[i].key.kind == Value
    && forall j :: 0 <= j < i && run[j].key.user == run[i].key.user ==> run[j].key.seqno > s
  }

  /** The live entries among the first `n`. */
  ghost function LiveUpTo(run: seq<Entry>, s: nat, n: nat): seq<Entry>
    requires n <= |run|
  {
    if n == 0 then [] else LiveUpTo(run, s, n - 1) + if IsLive(run, s, n - 1) then [run[n - 1]] else []
  }

  ghost function Live(run: seq<Entry>, s: nat): seq<Entry> { LiveUpTo(run, s, |run|) }

  /** The first live position from `i` on, or past the end. */
  ghost function NextLive(run: seq<Entry>, s: nat, i: nat): (r: nat)
    requires i <= |run|
    ensures i <= r <= |run| && (r < |run| ==> IsLive(run, s, r)) && forall k :: i <= k < r ==> !IsLive(run, s, k)
    decreases |run| - i
  {
    if i == |run| || IsLive(run, s, i) then i else NextLive(run, s, i + 1)
  }

  /** The last live position before `i`, or past the end. */
  ghost function PrevLive(run: seq<Entry>, s: nat, i: nat): (r: nat)
    requires i <= |run|
    ensures r == |run| || (r < i && IsLive(run, s, r))
    ensures forall k :: 0 <= k < i && !(r < |run| && k <= r) ==> !IsLive(run, s, k)
  {
    if i == 0 then |run| else if IsLive(run, s, i - 1) then i - 1 else PrevLive(run, s, i - 1)
  }

  ghost predicate Vis(run: seq<Entry>, s: nat, i: nat)
    requires i < |run|
  {
    run[i].key.seqno <= s
  }

  /** Entries from `p` on are hidden by `skip` exactly if a visible entry before `p` hides them. */
  ghost predicate SkipOk(run: seq<Entry>, s: nat, p: nat, skipping: bool, skip: UserKey)
    requires p <= |run|
  {
    && (forall j, k :: 0 <= j < p <= k < |run| && Vis(run, s, j) && run[j].key.user == run[k].key.user ==>
          skipping && run[k].key.user <= skip)
    && (skipping ==> forall k :: p <= k < |run| && run[k].key.user <= skip ==> !IsLive(run, s, k))
    && (skipping ==> forall k :: p <= k < |run| && Vis(run, s, k) ==> run[k].key.user >= skip)
  }

  lemma UsersIncrease(run: seq<Entry>)
    requires Sorted(run)
    ensures forall i, j :: 0 <= i <= j < |run| ==> run[i].key.user <= run[j].key.user
  {
  }

  lemma SkipPastHidden(run: seq<Entry>, s: nat, p: nat, skipping: bool, skip: UserKey)
    requires Sorted(run) && p < |run| && SkipOk(run, s, p, skipping, skip)
    requires !Vis(run, s, p) || (skipping && run[p].key.user <= skip)
    ensures !IsLive(run, s, p) && SkipOk(run, s, p + 1, skipping, skip)
  {
  }

  lemma SkipPastDeletion(run: seq<Entry>, s: nat, p: nat, skipping: bool, skip: UserKey)
    requires Sorted(run) && p < |run| && SkipOk(run, s, p, skipping, skip)
    requires Vis(run, s, p) && run[p].key.kind == Deletion
    ensures !IsLive(run, s, p) && SkipOk(run, s, p + 1, true, run[p].key.user)
  {
    UsersIncrease(run);
    forall k | p + 1 <= k < |run| && run[k].key.user <= run[p].key.user
      ensures !IsLive(run, s, k)
    {
      assert run[k].key.user == run[p].key.user;
    }
  }

  lemma StopAtLive(run: seq<Entry>, s: nat, p: nat, skipping: bool, skip: UserKey)
    requires Sorted(run) && p < |run| && SkipOk(run, s, p, skipping, skip)
    requires Vis(run, s, p) && run[p].key.kind == Value && !(skipping && run[p].key.user <= skip)
    ensures IsLive(run, s, p)
  {
    forall j | 0 <= j < p && run[j].key.user == run[p].key.user
      ensures run[j].key.seqno > s
    {
      assert !Vis(run, s, j);
    }
  }

  lemma SortedIsIncreasing(run: seq<Entry>)
    requires Sorted(run)
    ensures Increasing(run)
  {
  }

  /** The entries `p .. from` are passed over when `skip` is skipped. */
  ghost predicate PassedOver(run: seq<Entry>, s: nat, p: nat, from: nat, skipping: bool, skip: UserKey) {
    && p <= from <= |run|
    && forall k :: p <= k < from ==> !Vis(run, s, k) || (skipping && run[k].key.kind == Value && run[k].key.user <= skip)
  }

  /** A search under way: at entry `p`, with everything before `at` settled. */
  ghost predicate SearchOk(run: seq<Entry>, s: nat, p: nat, at: nat, skipping: bool, skip: UserKey) {
    (at == p || p < at) && PassedOver(run, s, p, at, skipping, skip) && SkipOk(run, s, at, skipping, skip)
  }

  lemma SearchPastHidden(run: seq<Entry>, s: nat, p: nat, at: nat, skipping: bool, skip: UserKey) returns (at2: nat)
    requires Sorted(run) && p < |run| && SearchOk(run, s, p, at, skipping, skip)
    requires !Vis(run, s, p) || (skipping && run[p].key.user <= skip)
    ensures at <= at2 <= |run| && SearchOk(run, s, p + 1, at2, skipping, skip)
    ensures NextLive(run, s, at2) == NextLive(run, s, at)
  {
    if at == p {
      SkipPastHidden(run, s, p, skipping, skip);
      at2 := at + 1;
    } else {
      at2 := at;
    }
  }

  lemma SearchPastDeletion(run: seq<Entry>, s: nat, p: nat, at: nat, skipping: bool, skip: UserKey) returns (at2: nat)
    requires Sorted(run) && p < |run| && SearchOk(run, s, p, at, skipping, skip)
    requires Vis(run, s, p) && run[p].key.kind == Deletion
    ensures at <= at2 <= |run| && SearchOk(run, s, p + 1, at2, true, run[p].key.user)
    ensures NextLive(run, s, at2) == NextLive(run, s, at)
  {
    SkipPastDeletion(run, s, p, skipping, skip);
    at2 := at + 1;
  }

  lemma SearchStops(run: seq<Entry>, s: nat, p: nat, at: nat, skipping: bool, skip: UserKey)
    requires Sorted(run) && p < |run| && SearchOk(run, s, p, at, skipping, skip)
    requires Vis(run, s, p) && run[p].key.kind == Value && !(skipping && run[p].key.user <= skip)
    ensures p == at && IsLive(run, s, p)
  {
    StopAtLive(run, s, p, skipping, skip);
  }

  lemma SearchInRange(run: seq<Entry>, s: nat, p: nat, at: nat, skipping: bool, skip: UserKey)
    requires p < |run| && SearchOk(run, s, p, at, skipping, skip)
    ensures at <= |run|
  {
  }

  /** Past a live entry, its user key is the one to skip. */
  lemma SkipLive(run: seq<Entry>, s: nat, i: nat)
    requires Sorted(run) && IsLive(run, s, i)
    ensures SkipOk(run, s, i + 1, true, run[i].key.user)
  {
    UsersIncrease(run);
    forall k | i + 1 <= k < |run| && run[k].key.user <= run[i].key.user
      ensures !IsLive(run, s, k)
    {
      assert run[k].key.user == run[i].key.user;
    }
  }

  /** From the hidden entries before a live one, the search goes on past it. */
  lemma BackInto(run: seq<Entry>, s: nat, p: nat, i: nat)
    requires Sorted(run) && IsLive(run, s, i) && p <= i && forall k :: p <= k < i ==> !Vis(run, s, k)
    ensures SearchOk(run, s, p, i + 1, true, run[i].key.user)
  {
    SkipLive(run, s, i);
  }

  /** At the first entry at or after a lookup key nothing has to be skipped. */
  lemma NothingToSkip(run: seq<Entry>, s: nat, target: UserKey)
    requires Sorted(run)
    ensures SkipOk(run, s, SeekIndex(run, SeekKey(target, s)), false, 0.0)
  {
    var p := SeekIndex(run, SeekKey(target, s));
    UsersIncrease(run);
  }

  /** Between the last visible entry of an earlier key and a position nothing is live. */
  lemma {:induction false} PrevLiveSkips(run: seq<Entry>, s: nat, n: nat, i: nat)
    requires n <= i <= |run| && forall k :: n <= k < i ==> !IsLive(run, s, k)
    ensures PrevLive(run, s, n) == PrevLive(run, s, i)
  {
    if n < i { PrevLiveSkips(run, s, n, i - 1); }
  }

  lemma HiddenIsNotLive(run: seq<Entry>, s: nat, i: nat)
    requires i < |run| && !Vis(run, s, i)
    ensures !IsLive(run, s, i)
  {
  }

  /** The entries of a key before its live one are not live. */
  lemma OlderIsNotLive(run: seq<Entry>, s: nat, i: nat, cur: nat)
    requires IsLive(run, s, cur) && i < cur && run[i].key.user == run[cur].key.user
    ensures !IsLive(run, s, i) && PrevLive(run, s, i + 1) == PrevLive(run, s, i)
  {
  }

  /**
   * A backward scan of the entries `n .. b` under way.  Either none of them is live, or the only one that may be is
   * the candidate `m`, the last visible entry met.
   */
  ghost predicate ScanOk(run: seq<Entry>, s: nat, n: nat, b: nat, found: bool, m: nat)
    requires n <= b <= |run|
  {
    && (!found ==> forall k :: n <= k < b ==> !IsLive(run, s, k))
    && (found ==> n <= m < b && Vis(run, s, m) && run[m].key.kind == Value
                  && (forall k :: n <= k < b && k != m ==> !IsLive(run, s, k))
                  && forall k :: n <= k < m ==> !Vis(run, s, k))
  }

  lemma NothingScanned(run: seq<Entry>, s: nat, b: nat)
    requires b <= |run|
    ensures ScanOk(run, s, b, b, false, 0)
  {
  }

  lemma ScanHidden(run: seq<Entry>, s: nat, n: nat, b: nat, found: bool, m: nat)
    requires Sorted(run) && 0 < n <= b <= |run| && ScanOk(run, s, n, b, found, m) && !Vis(run, s, n - 1)
    ensures ScanOk(run, s, n - 1, b, found, m)
  {
  }

  /** A visible entry of the candidate's user key, or of any key when there is no candidate, takes its place. */
  lemma ScanVisible(run: seq<Entry>, s: nat, n: nat, b: nat, found: bool, m: nat)
    requires Sorted(run) && 0 < n <= b <= |run| && ScanOk(run, s, n, b, found, m) && Vis(run, s, n - 1)
    requires found ==> run[n - 1].key.user >= run[m].key.user
    ensures ScanOk(run, s, n - 1, b, run[n - 1].key.kind == Value, n - 1)
  {
    if found {
      UsersIncrease(run);
      assert run[n - 1].key.user == run[m].key.user;
      assert !IsLive(run, s, m);
    }
  }

  lemma ScanEnds(run: seq<Entry>, s: nat, n: nat, b: nat, found: bool, m: nat)
    requires Sorted(run) && n <= b <= |run| && ScanOk(run, s, n, b, found, m)
    requires n == 0 || (found && Vis(run, s, n - 1) && run[n - 1].key.user < run[m].key.user)
    ensures PrevLive(run, s, b) == if found then m else |run|
    ensures found ==> IsLive(run, s, m)
  {
    if found {
      UsersIncrease(run);
      forall j | 0 <= j < m && run[j].key.user == run[m].key.user
        ensures run[j].key.seqno > s
      {
        assert j >= n && !Vis(run, s, j);
      }
      assert IsLive(run, s, m);
    }
    var r := PrevLive(run, s, b);
    assert r < |run| ==> IsLive(run, s, r);
  }

  lemma ScanCandidate(run: seq<Entry>, s: nat, n: nat, b: nat, m: nat)
    requires n <= b <= |run| && ScanOk(run, s, n, b, true, m)
    ensures n <= m < b && forall k :: n <= k < m ==> !Vis(run, s, k)
  {
  }

  // Positions among the live entries

  ghost function Rank(run: seq<Entry>, s: nat, i: nat): nat
    requires i <= |run|
  {
    |LiveUpTo(run, s, i)|
  }

  lemma {:induction false} LiveGrows(run: seq<Entry>, s: nat, i: nat, j: nat)
    requires i <= j <= |run|
    ensures LiveUpTo(run, s, i) <= LiveUpTo(run, s, j)
    ensures (forall k :: i <= k < j ==> !IsLive(run, s, k)) ==> LiveUpTo(run, s, i) == LiveUpTo(run, s, j)
  {
    if i < j { LiveGrows(run, s, i, j - 1); }
  }

  /** A live entry is found at its rank. */
  lemma LiveAtRank(run: seq<Entry>, s: nat, i: nat)
    requires IsLive(run, s, i)
    ensures Rank(run, s, i) < |Live(run, s)| && Live(run, s)[Rank(run, s, i)] == run[i]
    ensures Rank(run, s, i + 1) == Rank(run, s, i) + 1
  {
    LiveGrows(run, s, i + 1, |run|);
    assert LiveUpTo(run, s, i + 1) == LiveUpTo(run, s, i) + [run[i]];
  }

  lemma NextLiveRank(run: seq<Entry>, s: nat, i: nat)
    requires i <= |run|
    ensures Rank(run, s, NextLive(run, s, i)) == Rank(run, s, i)
  {
    LiveGrows(run, s, i, NextLive(run, s, i));
  }

  lemma PrevLiveRank(run: seq<Entry>, s: nat, i: nat)
    requires i <= |run|
    ensures var r := PrevLive(run, s, i);
            if Rank(run, s, i) == 0 then r == |run| else r < |run| && Rank(run, s, r) == Rank(run, s, i) - 1
  {
    var r := PrevLive(run, s, i);
    if r < |run| {
      LiveAtRank(run, s, r);
      LiveGrows(run, s, r + 1, i);
    } else {
      LiveGrows(run, s, 0, i);
    }
  }

  /** The entry at each rank is live, and ranks follow the order of the run. */
  lemma {:induction false} LiveWitness(run: seq<Entry>, s: nat, n: nat, k: nat) returns (i: nat)
    requires n <= |run| && k < Rank(run, s, n)
    ensures i < n && IsLive(run, s, i) && Rank(run, s, i) == k
  {
    if IsLive(run, s, n - 1) && k == Rank(run, s, n - 1) {
      i := n - 1;
    } else {
      i := LiveWitness(run, s, n - 1, k);
    }
  }

  /** The live entries are in order, one per user key. */
  lemma LiveIncreases(run: seq<Entry>, s: nat, j: nat, k: nat)
    requires Sorted(run) && j < k < |Live(run, s)|
    ensures Live(run, s)[j].key.user < Live(run, s)[k].key.user
  {
    var a := LiveWitness(run, s, |run|, j);
    var b := LiveWitness(run, s, |run|, k);
    LiveAtRank(run, s, a);
    LiveAtRank(run, s, b);
    if b <= a { LiveGrows(run, s, b, a); }
    UsersIncrease(run);
    assert a < b && !(run[a].key.user == run[b].key.user);
  }

  lemma SeekRank(run: seq<Entry>, s: nat, target: UserKey, k: nat)
    requires Sorted(run) && k < |Live(run, s)|
    ensures k < Rank(run, s, NextLive(run, s, SeekIndex(run, SeekKey(target, s)))) <==>
            Live(run, s)[k].key.user < target
  {
    var p := SeekIndex(run, SeekKey(target, s));
    NextLiveRank(run, s, p);
    var i := LiveWitness(run, s, |run|, k);
    LiveAtRank(run, s, i);
    UsersIncrease(run);
    if i < p {
      assert Before(run[i].key, SeekKey(target, s));
      LiveGrows(run, s, i + 1, p);
    } else {
      LiveGrows(run, s, p, i);
    }
  }

  /** The live entries are exactly what readers at the snapshot get. */
  lemma LiveIsWhatReadersGet(run: seq<Entry>, s: nat, u: UserKey, v: Bytes)
    requires Sorted(run)
    ensures ReadsAs(EntrySet(run), u, s, Some(v))
            <==> exists k :: 0 <= k < |Live(run, s)| && Live(run, s)[k].key.user == u && Live(run, s)[k].value == v
  {
    if ReadsAs(EntrySet(run), u, s, Some(v)) {
      var e :| IsNewest(EntrySet(run), u, s, e) && e.key.kind == Value && e.value == v;
      var i :| 0 <= i < |run| && run[i] == e;
      forall j | 0 <= j < i && run[j].key.user == u
        ensures run[j].key.seqno > s
      {
        assert run[j] in EntrySet(run) && Precedes(run[j].key, run[i].key);
      }
      LiveAtRank(run, s, i);
    }
    if k :| 0 <= k < |Live(run, s)| && Live(run, s)[k].key.user == u && Live(run, s)[k].value == v {
      var i := LiveWitness(run, s, |run|, k);
      LiveAtRank(run, s, i);
      LiveIsNewest(run, s, i);
    }
  }

  lemma LiveIsNewest(run: seq<Entry>, s: nat, i: nat)
    requires Sorted(run) && IsLive(run, s, i)
    ensures IsNewest(EntrySet(run), run[i].key.user, s, run[i])
  {
    forall x | x in EntrySet(run) && Visible(x, run[i].key.user, s)
      ensures x.key.seqno <= run[i].key.seqno
    {
      var j :| 0 <= j < |run| && run[j] == x;
    }
  }

  class DBIter {
    const iter: MergingIterator
    const sequence: nat
    var forward: bool      // direction_
    var valid: bool
    var savedKey: UserKey
    var savedValue: Bytes
    ghost var cur: nat     // the position of the entry yielded, past the end if there is none

    constructor (iter: MergingIterator, sequence: nat)
      requires Sorted(iter.run) && iter.Inv()
      ensures Inv() && this.iter == iter && this.sequence == sequence && !valid
    {
      this.iter, this.sequence := iter, sequence;
      forward, valid, savedKey, savedValue := true, false, 0.0, [];
      cur := |iter.run|;
    }

    /** Moving backwards, the internal iterator is on the last visible entry of an earlier user key. */
    ghost predicate BeforeCurrent()
      requires cur < |iter.run|
      reads this, iter
    {
      && (iter.OnEntry() ==> iter.index < cur && Vis(iter.run, sequence, iter.index) && iter.run[iter.index].key.user < savedKey)
      && forall k :: (if iter.OnEntry() then iter.index else -1) < k < cur ==> !Vis(iter.run, sequence, k)
    }

    /** The internal iterator is apart from this one, and its entries are in order. */
    ghost predicate IterOk()
      reads iter.Repr()
    {
      this !in iter.Repr() && iter.Inv() && Sorted(iter.run)
    }

    ghost predicate Inv()
      reads this, iter.Repr()
    {
      && IterOk() && cur <= |iter.run| && (valid <==> cur < |iter.run|)
      && (valid ==> IsLive(iter.run, sequence, cur))
      && (valid && forward ==> iter.index == cur)
      && (valid && !forward ==> savedKey == iter.run[cur].key.user && savedValue == iter.run[cur].value
                                && BeforeCurrent())
    }

    /** The live entries of the snapshot, and where among them the iterator is. */
    ghost function LiveRun(): seq<Entry> { Live(iter.run, sequence) }

    ghost function Pos(): nat
      requires cur <= |iter.run|
      reads this
    {
      Rank(iter.run, sequence, cur)
    }

    lemma PosIsCurrent()
      requires Inv()
      ensures valid <==> Pos() < |LiveRun()|
      ensures valid ==> Key() == LiveRun()[Pos()].key.user && Value() == LiveRun()[Pos()].value
    {
      if valid { LiveAtRank(iter.run, sequence, cur); }
    }

    lemma PosInRange()
      requires Inv()
      ensures Pos() <= |LiveRun()|
    {
      LiveGrows(iter.run, sequence, cur, |iter.run|);
    }

    function Key(): UserKey
      requires Inv() && valid
      reads this, iter.Repr()
    {
      if forward then iter.Key().user else savedKey
    }

    function Value(): Bytes
      requires Inv() && valid
      reads this, iter.Repr()
    {
      if forward then iter.Value() else savedValue
    }

    /** Looks for the next live entry; the entries before `from` belong to the key to skip. */
    method FindNextUserEntry(skipping: bool, ghost from: nat)
      requires IterOk() && iter.OnEntry() && forward
      requires SearchOk(iter.run, sequence, iter.index, from, skipping, savedKey)
      modifies this, iter.Repr()
      ensures Inv() && forward && cur == NextLive(iter.run, sequence, from)
    {
      hide MergingIterator.Inv, MergingIterator.Repr, SearchOk, NextLive, IsLive, Sorted;
      SearchInRange(iter.run, sequence, iter.index, from, skipping, savedKey);
      var skipping := skipping;
      var skip := savedKey;
      ghost var at: nat := from;
      while true
        invariant IterOk() && iter.OnEntry() && forward && from <= |iter.run|
        invariant at <= |iter.run| && SearchOk(iter.run, sequence, iter.index, at, skipping, skip)
        invariant NextLive(iter.run, sequence, from) == NextLive(iter.run, sequence, at)
        decreases |iter.run| - iter.index
      {
        var key := iter.Key();
        if key.seqno <= sequence {
          if key.kind == Deletion {
            at := SearchPastDeletion(iter.run, sequence, iter.index, at, skipping, skip);
            skip := key.user;
            skipping := true;
          } else if skipping && key.user <= skip {
            at := SearchPastHidden(iter.run, sequence, iter.index, at, skipping, skip);
          } else {
            SearchStops(iter.run, sequence, iter.index, at, skipping, skip);
            valid := true;
            savedKey := 0.0;
            cur := iter.index;
            return;
          }
        } else {
          at := SearchPastHidden(iter.run, sequence, iter.index, at, skipping, skip);
        }
        iter.Next();
        if !iter.Valid() {
          break;
        }
      }
      savedKey := 0.0;
      valid := false;
      cur := |iter.run|;
    }

    /** The number of entries at or before the internal iterator. */
    ghost function Behind(): nat
      reads iter
    {
      if iter.OnEntry() then iter.index + 1 else 0
    }

    method FindPrevUserEntry()
      requires IterOk() && !forward
      modifies this, iter.Repr()
      ensures Inv() && cur == PrevLive(iter.run, sequence, old(Behind())) && forward == !valid
    {
      hide MergingIterator.Inv, MergingIterator.Repr, ScanOk, PrevLive, IsLive;
      var valueType := Deletion;
      ghost var b := Behind();
      NothingScanned(iter.run, sequence, b);
      ghost var m: nat := 0;
      if iter.Valid() {
        while true
          invariant IterOk() && iter.OnEntry() && Behind() <= b && !forward
          invariant ScanOk(iter.run, sequence, Behind(), b, valueType == InternalKeys.Value, m)
          invariant valueType == InternalKeys.Value ==>
            m < |iter.run| && savedKey == iter.run[m].key.user && savedValue == iter.run[m].value
          decreases iter.index
        {
          var key := iter.Key();
          if key.seqno <= sequence {
            if valueType != Deletion && key.user < savedKey {
              break;
            }
            ScanVisible(iter.run, sequence, Behind(), b, valueType == InternalKeys.Value, m);
            m := iter.index;
            valueType := key.kind;
            if valueType == Deletion {
              savedKey, savedValue := 0.0, [];
            } else {
              savedKey, savedValue := key.user, iter.Value();
            }
          } else {
            ScanHidden(iter.run, sequence, Behind(), b, valueType == InternalKeys.Value, m);
          }
          iter.Prev();
          if !iter.Valid() {
            break;
          }
        }
      }
      ScanEnds(iter.run, sequence, Behind(), b, valueType == InternalKeys.Value, m);
      if valueType == InternalKeys.Value { ScanCandidate(iter.run, sequence, Behind(), b, m); }
      if valueType == Deletion {
        valid := false;
        savedKey, savedValue := 0.0, [];
        forward := true;
        cur := |iter.run|;
      } else {
        valid := true;
        cur := m;
      }
    }

    /** Moves the internal iterator from before the entries of the current key into them. */
    method SwitchForward()
      requires Inv() && valid && !forward
      modifies this`forward, iter.Repr()
      ensures IterOk() && iter.OnEntry() && forward
      ensures SearchOk(iter.run, sequence, iter.index, cur + 1, true, savedKey)
    {
      hide MergingIterator.Inv, MergingIterator.Repr, IsLive, SearchOk, Sorted;
      forward := true;
      if !iter.Valid() {
        iter.SeekToFirst();
      } else {
        iter.Next();
      }
      BackInto(iter.run, sequence, iter.index, cur);
      assert iter.Valid();  // the source's check for the end never fires here: the current entry is still ahead
    }

    /** Remembers the current key as the one to skip. */
    method SkipCurrent()
      requires Inv() && valid
      modifies this`forward, this`savedKey, iter.Repr()
      ensures IterOk() && iter.OnEntry() && forward
      ensures SearchOk(iter.run, sequence, iter.index, cur + 1, true, savedKey)
    {
      if !forward {
        SwitchForward();
      } else {
        savedKey := iter.Key().user;
        SkipLive(iter.run, sequence, cur);
      }
    }

    method Next()
      requires Inv() && valid
      modifies this, iter.Repr()
      ensures Inv() && cur == NextLive(iter.run, sequence, old(cur) + 1)
      ensures old(Pos()) < |LiveRun()| && Pos() == NextPos(LiveRun(), old(Pos()))
    {
      hide Live, IsLive, NextLive, Rank, SearchOk, Sorted, MergingIterator.Inv, MergingIterator.Repr;
      LiveAtRank(iter.run, sequence, cur);
      NextLiveRank(iter.run, sequence, cur + 1);
      SkipCurrent();
      FindNextUserEntry(true, cur + 1);
    }

    method Prev()
      requires Inv() && valid
      modifies this, iter.Repr()
      ensures Inv() && cur == PrevLive(iter.run, sequence, old(cur))
      ensures old(Pos()) < |LiveRun()| && Pos() == PrevPos(LiveRun(), old(Pos()))
    {
      LiveAtRank(iter.run, sequence, cur);
      PrevLiveRank(iter.run, sequence, cur);
      hide MergingIterator.Inv, MergingIterator.Repr, Live, Rank, PrevLive, Sorted, IsLive;
      if forward {
        var more := LeaveCurrent();
        if !more {
          return;
        }
        forward := false;
      } else {
        forall k | Behind() <= k < cur
          ensures !IsLive(iter.run, sequence, k)
        {
          HiddenIsNotLive(iter.run, sequence, k);
        }
        PrevLiveSkips(iter.run, sequence, Behind(), cur);
      }
      FindPrevUserEntry();
    }

    /** Moves the internal iterator back past the entries of the current key, out of the run if no other is before. */
    method LeaveCurrent() returns (more: bool)
      requires Inv() && valid && forward
      modifies this, iter.Repr()
      ensures forward && PrevLive(iter.run, sequence, old(cur)) == PrevLive(iter.run, sequence, Behind())
      ensures more ==> IterOk() && iter.OnEntry() && cur == old(cur)
      ensures !more ==> Inv() && cur == |iter.run| && Behind() == 0
    {
      hide MergingIterator.Inv, MergingIterator.Repr, IsLive, Sorted, PrevLive;
      savedKey := iter.Key().user;
      while true
        invariant IterOk() && iter.OnEntry() && iter.index <= cur && cur == old(cur) < |iter.run| && forward
        invariant savedKey == iter.run[cur].key.user && iter.run[iter.index].key.user == savedKey
        invariant IsLive(iter.run, sequence, cur)
        invariant PrevLive(iter.run, sequence, cur) == PrevLive(iter.run, sequence, iter.index)
        decreases iter.index
      {
        iter.Prev();
        if !iter.Valid() {
          valid := false;
          savedKey, savedValue := 0.0, [];
          cur := |iter.run|;
          return false;
        }
        if iter.Key().user < savedKey {
          break;
        }
        UsersIncrease(iter.run);
        OlderIsNotLive(iter.run, sequence, iter.index, cur);
      }
      more := true;
    }

    method Seek(target: UserKey)
      requires IterOk()
      modifies this, iter.Repr()
      ensures Inv() && cur == NextLive(iter.run, sequence, SeekIndex(iter.run, SeekKey(target, sequence)))
      ensures forall k :: 0 <= k < |LiveRun()| ==> (k < Pos() <==> LiveRun()[k].key.user < target)
    {
      forall k | 0 <= k < |LiveRun()|
        ensures k < Rank(iter.run, sequence, NextLive(iter.run, sequence,
                                                      SeekIndex(iter.run, SeekKey(target, sequence))))
                <==> LiveRun()[k].key.user < target
      {
        SeekRank(iter.run, sequence, target, k);
      }
      forward := true;
      savedKey, savedValue := 0.0, [];
      SortedIsIncreasing(iter.run);
      iter.Seek(SeekKey(target, sequence));
      NothingToSkip(iter.run, sequence, target);
      if iter.Valid() {
        FindNextUserEntry(false, iter.index);
      } else {
        valid := false;
        cur := |iter.run|;
      }
    }

    method SeekToFirst()
      requires IterOk()
      modifies this, iter.Repr()
      ensures Inv() && cur == NextLive(iter.run, sequence, 0)
      ensures Pos() == FirstPos(LiveRun())
    {
      NextLiveRank(iter.run, sequence, 0);
      forward := true;
      savedValue := [];
      iter.SeekToFirst();
      if iter.Valid() {
        FindNextUserEntry(false, iter.index);
      } else {
        valid := false;
        cur := |iter.run|;
      }
    }

    method SeekToLast()
      requires IterOk()
      modifies this, iter.Repr()
      ensures Inv() && cur == PrevLive(iter.run, sequence, |iter.run|)
      ensures Pos() == LastPos(LiveRun())
    {
      PrevLiveRank(iter.run, sequence, |iter.run|);
      forward := false;
      savedValue := [];
      iter.SeekToLast();
      FindPrevUserEntry();
    }
  }

  // Whole runs of cursor operations

  datatype Move = ToFirst | ToLast | To(target: UserKey) | Forward | Backward

  /** The first position whose user key is at or after `target`. */
  ghost function UserIndex(live: seq<Entry>, target: UserKey): nat {
    if live == [] || live[0].key.user >= target then 0 else 1 + UserIndex(live[1..], target)
  }

  lemma {:induction false} UserIndexIs(live: seq<Entry>, target: UserKey, p: nat)
    requires p <= |live| && forall k :: 0 <= k < |live| ==> (k < p <==> live[k].key.user < target)
    ensures UserIndex(live, target) == p
  {
    if live != [] && live[0].key.user < target {
      UserIndexIs(live[1..], target, p - 1);
    }
  }

  /** Where a cursor over the live entries stands after a move; it stays where it is if it cannot move on. */
  ghost function Moved(live: seq<Entry>, pos: nat, move: Move): nat {
    match move
    case ToFirst => FirstPos(live)
    case ToLast => LastPos(live)
    case To(target) => UserIndex(live, target)
    case Forward => if pos < |live| then NextPos(live, pos) else pos
    case Backward => if pos < |live| then PrevPos(live, pos) else pos
  }

  ghost function MovedAll(live: seq<Entry>, pos: nat, moves: seq<Move>): nat {
    if moves == [] then pos
    else Moved(live, MovedAll(live, pos, moves[..|moves| - 1]), moves[|moves| - 1])
  }

  /** Any sequence of moves, with any changes of direction, takes the iterator where a cursor over the live entries
      of its snapshot would be. */
  method Drive(it: DBIter, moves: seq<Move>)
    requires it.Inv()
    modifies it, it.iter.Repr()
    ensures it.Inv() && it.Pos() == MovedAll(it.LiveRun(), old(it.Pos()), moves)
  {
    for i := 0 to |moves|
      invariant it.Inv() && it.Pos() == MovedAll(it.LiveRun(), old(it.Pos()), moves[..i])
    {
      it.PosIsCurrent();
      assert moves[..i + 1][..i] == moves[..i];
      match moves[i]
      case ToFirst => it.SeekToFirst();
      case ToLast => it.SeekToLast();
      case To(target) =>
        it.Seek(target);
        it.PosInRange();
        UserIndexIs(it.LiveRun(), target, it.Pos());
      case Forward => if it.valid { it.Next(); }
      case Backward => if it.valid { it.Prev(); }
    }
    assert moves[..|moves|] == moves;
  }
}
