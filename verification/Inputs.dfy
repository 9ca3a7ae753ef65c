/** Choosing the files of a compaction (db/version_set.cc). */
module Inputs {
  import opened Wrappers
  import opened InternalKeys
  import opened Files

  type Bound = Option<UserKey>

  /** The files that overlap the range, in list order. */
  function Overlapping<C>(files: seq<File<C>>, begin: Bound, end: Bound): seq<File<C>> {
    if files == [] then []
    else
      var last := files[|files| - 1];
      Overlapping(files[..|files| - 1], begin, end) + if Overlaps(last, begin, end) then [last] else []
  }

  lemma {:induction false} OverlappingMembers<C(!new)>(files: seq<File<C>>, begin: Bound, end: Bound)
    ensures forall f :: f in Overlapping(files, begin, end) <==> f in files && Overlaps(f, begin, end)
  {
    if files != [] {
      var rest := files[..|files| - 1];
      OverlappingMembers(rest, begin, end);
      assert files == rest + [files[|files| - 1]];
    }
  }

  lemma OverlappingExtends<C(!new)>(files: seq<File<C>>, i: nat, begin: Bound, end: Bound)
    requires i < |files|
    ensures Overlapping(files[..i + 1], begin, end)
            == Overlapping(files[..i], begin, end) + if Overlaps(files[i], begin, end) then [files[i]] else []
  {
    assert files[..i + 1][..i] == files[..i];
  }

  /** The range `begin2 .. end2` contains the range `begin1 .. end1`. */
  predicate Contains(begin2: Bound, end2: Bound, begin1: Bound, end1: Bound) {
    && (begin2.Some? ==> begin1.Some? && begin2.value <= begin1.value)
    && (end2.Some? ==> end1.Some? && end1.value <= end2.value)
  }

  /** Every file that overlaps the range lies inside it. */
  ghost predicate Closed<C>(files: seq<File<C>>, begin: Bound, end: Bound) {
    forall f :: f in files && Overlaps(f, begin, end)
      ==> Contains(begin, end, Some(f.smallest.user), Some(f.largest.user))
  }

  /** `lo .. hi` is the least range that contains the request and is closed under overlap. */
  ghost predicate LeastClosed<C>(files: seq<File<C>>, begin: Bound, end: Bound, lo: Bound, hi: Bound) {
    && Contains(lo, hi, begin, end)
    && Closed(files, lo, hi)
    && forall b: Bound, e: Bound :: Contains(b, e, begin, end) && Closed(files, b, e) ==> Contains(b, e, lo, hi)
  }

  lemma LeastClosedIsUnique<C>(files: seq<File<C>>, begin: Bound, end: Bound,
                               lo1: Bound, hi1: Bound, lo2: Bound, hi2: Bound)
    requires LeastClosed(files, begin, end, lo1, hi1) && LeastClosed(files, begin, end, lo2, hi2)
    ensures lo1 == lo2 && hi1 == hi2
  {
    assert Contains(lo1, hi1, lo2, hi2) && Contains(lo2, hi2, lo1, hi1);
  }

  /**
   * What a compaction picks up in one level: the files overlapping the request, and in level 0, whose files
   * may overlap each other, the files overlapping the least range around the request closed under overlap.
   */
  ghost predicate IsOverlapSet<C(!new)>(level: nat, files: seq<File<C>>, begin: Bound, end: Bound, inputs: seq<File<C>>) {
    if level > 0 then inputs == Overlapping(files, begin, end)
    else exists lo, hi :: LeastClosed(files, begin, end, lo, hi) && inputs == Overlapping(files, lo, hi)
  }

  /** Every closed range around the request contains `lo .. hi`. */
  ghost predicate Unavoidable<C>(files: seq<File<C>>, begin: Bound, end: Bound, lo: Bound, hi: Bound) {
    && Contains(lo, hi, begin, end)
    && forall b: Bound, e: Bound :: Contains(b, e, begin, end) && Closed(files, b, e) ==> Contains(b, e, lo, hi)
  }

  /** A file that overlaps an unavoidable range makes the range widened to its ends unavoidable. */
  lemma WideningIsUnavoidable<C>(files: seq<File<C>>, begin: Bound, end: Bound, lo: Bound, hi: Bound, f: File<C>)
    requires Unavoidable(files, begin, end, lo, hi) && f in files && Overlaps(f, lo, hi)
    ensures lo.Some? && f.smallest.user < lo.value ==> Unavoidable(files, begin, end, Some(f.smallest.user), hi)
    ensures hi.Some? && f.largest.user > hi.value ==> Unavoidable(files, begin, end, lo, Some(f.largest.user))
  {
    forall b: Bound, e: Bound | Contains(b, e, begin, end) && Closed(files, b, e)
      ensures Contains(b, e, Some(f.smallest.user), Some(f.largest.user))
    {
      assert Contains(b, e, lo, hi);
      assert Overlaps(f, b, e);
    }
  }

  ghost function StartsBefore<C>(files: seq<File<C>>, begin: Bound): set<nat> {
    set i: nat | i < |files| && begin.Some? && files[i].smallest.user < begin.value
  }

  ghost function EndsAfter<C>(files: seq<File<C>>, end: Bound): set<nat> {
    set i: nat | i < |files| && end.Some? && files[i].largest.user > end.value
  }

  /** Widening the range to the file at `index` leaves fewer files sticking out of it: the restarts end. */
  lemma WideningProgresses<C>(files: seq<File<C>>, lo: Bound, hi: Bound, index: nat)
    requires index < |files|
    ensures lo.Some? && files[index].smallest.user < lo.value
            ==> StartsBefore(files, Some(files[index].smallest.user)) < StartsBefore(files, lo)
    ensures hi.Some? && files[index].largest.user > hi.value
            ==> EndsAfter(files, Some(files[index].largest.user)) < EndsAfter(files, hi)
  {
    assert lo.Some? && files[index].smallest.user < lo.value
           ==> index in StartsBefore(files, lo) && index !in StartsBefore(files, Some(files[index].smallest.user));
    assert hi.Some? && files[index].largest.user > hi.value
           ==> index in EndsAfter(files, hi) && index !in EndsAfter(files, Some(files[index].largest.user));
  }

  lemma ClosedExtends<C>(files: seq<File<C>>, i: nat, lo: Bound, hi: Bound)
    requires i < |files| && Closed(files[..i], lo, hi)
    requires Overlaps(files[i], lo, hi) ==> Contains(lo, hi, Some(files[i].smallest.user), Some(files[i].largest.user))
    ensures Closed(files[..i + 1], lo, hi)
  {
    assert files[..i + 1] == files[..i] + [files[i]];
  }

  method GetOverlappingInputs<C(!new)>(level: nat, files: seq<File<C>>, begin: Bound, end: Bound)
    returns (inputs: seq<File<C>>)
    ensures IsOverlapSet(level, files, begin, end, inputs)
  {
    inputs := [];
    var userBegin, userEnd := begin, end;
    var i := 0;
    while i < |files|
      invariant 0 <= i <= |files|
      invariant inputs == Overlapping(files[..i], userBegin, userEnd)
      invariant level > 0 ==> userBegin == begin && userEnd == end
      invariant level == 0 ==> Closed(files[..i], userBegin, userEnd)
      invariant Unavoidable(files, begin, end, userBegin, userEnd)
      decreases StartsBefore(files, userBegin), EndsAfter(files, userEnd), |files| - i
    {
      OverlappingExtends(files, i, userBegin, userEnd);
      var f := files[i];
      i := i + 1;
      if userBegin.Some? && f.largest.user < userBegin.value {
        if level == 0 { ClosedExtends(files, i - 1, userBegin, userEnd); }
      } else if userEnd.Some? && f.smallest.user > userEnd.value {
        if level == 0 { ClosedExtends(files, i - 1, userBegin, userEnd); }
      } else {
        inputs := inputs + [f];
        if level == 0 {
          WideningIsUnavoidable(files, begin, end, userBegin, userEnd, f);
          WideningProgresses(files, userBegin, userEnd, i - 1);
          if userBegin.Some? && f.smallest.user < userBegin.value {
            userBegin := Some(f.smallest.user);
            inputs, i := [], 0;
          } else if userEnd.Some? && f.largest.user > userEnd.value {
            userEnd := Some(f.largest.user);
            inputs, i := [], 0;
          } else {
            ClosedExtends(files, i - 1, userBegin, userEnd);
          }
        }
      }
    }
    assert files[..|files|] == files;
    assert level == 0 ==> LeastClosed(files, begin, end, userBegin, userEnd);
  }

  predicate IsBoundary<C>(f: File<C>, largest: InternalKey) {
    Before(largest, f.smallest) && f.smallest.user == largest.user
  }

  method FindLargestKey<C>(files: seq<File<C>>) returns (largest: Option<InternalKey>)
    ensures largest.None? <==> files == []
    ensures largest.Some? ==> IsLargest(files, largest.value)
  {
    if files == [] {
      return None;
    }
    var key := files[0].largest;
    for i := 1 to |files|
      invariant exists k :: 0 <= k < i && files[k].largest == key
      invariant forall k :: 0 <= k < i ==> !Before(key, files[k].largest)
    {
      if Before(key, files[i].largest) {
        key := files[i].largest;
      }
    }
    largest := Some(key);
  }

  ghost predicate IsLargest<C>(files: seq<File<C>>, largest: InternalKey) {
    (exists k :: 0 <= k < |files| && files[k].largest == largest)
    && forall k :: 0 <= k < |files| ==> !Before(largest, files[k].largest)
  }

  /** `f` is the first file of the level that continues the user key of `largest`. */
  ghost predicate IsNextBoundary<C>(levelFiles: seq<File<C>>, largest: InternalKey, f: File<C>) {
    && f in levelFiles && IsBoundary(f, largest)
    && forall g :: g in levelFiles && IsBoundary(g, largest) ==> !Before(g.smallest, f.smallest)
  }

  method FindSmallestBoundaryFile<C>(levelFiles: seq<File<C>>, largest: InternalKey) returns (r: Option<File<C>>)
    ensures r.None? ==> forall f :: f in levelFiles ==> !IsBoundary(f, largest)
    ensures r.Some? ==> IsNextBoundary(levelFiles, largest, r.value)
  {
    r := None;
    for i := 0 to |levelFiles|
      invariant r.None? ==> forall k :: 0 <= k < i ==> !IsBoundary(levelFiles[k], largest)
      invariant r.Some? ==> r.value in levelFiles && IsBoundary(r.value, largest)
      invariant r.Some? ==> forall k :: 0 <= k < i && IsBoundary(levelFiles[k], largest)
                                        ==> !Before(levelFiles[k].smallest, r.value.smallest)
    {
      var f := levelFiles[i];
      if Before(largest, f.smallest) && f.smallest.user == largest.user {
        if r.None? || Before(f.smallest, r.value.smallest) {
          r := Some(f);
        }
      }
    }
  }

  /** `added` continues `largest` file by file, and nothing in the level continues its end. */
  ghost predicate BoundaryChain<C>(levelFiles: seq<File<C>>, largest: InternalKey, added: seq<File<C>>)
    decreases |added|
  {
    if added == [] then forall f :: f in levelFiles ==> !IsBoundary(f, largest)
    else IsNextBoundary(levelFiles, largest, added[0]) && BoundaryChain(levelFiles, added[0].largest, added[1..])
  }

  ghost function StartsAfter<C>(files: seq<File<C>>, key: InternalKey): set<nat> {
    set i: nat | i < |files| && Before(key, files[i].smallest)
  }

  /** The chain so far, open at its end: `last` is the largest key reached. */
  ghost predicate OpenChain<C>(levelFiles: seq<File<C>>, largest: InternalKey, added: seq<File<C>>, last: InternalKey)
    decreases |added|
  {
    if added == [] then last == largest
    else IsNextBoundary(levelFiles, largest, added[0]) && OpenChain(levelFiles, added[0].largest, added[1..], last)
  }

  lemma {:induction false} OpenChainExtends<C>(levelFiles: seq<File<C>>, largest: InternalKey, added: seq<File<C>>,
                                               last: InternalKey, f: File<C>)
    requires OpenChain(levelFiles, largest, added, last) && IsNextBoundary(levelFiles, last, f)
    ensures OpenChain(levelFiles, largest, added + [f], f.largest)
    decreases |added|
  {
    if added == [] {
      assert ([f])[1..] == [];
    } else {
      OpenChainExtends(levelFiles, added[0].largest, added[1..], last, f);
      assert (added + [f])[1..] == added[1..] + [f];
    }
  }

  lemma {:induction false} OpenChainCloses<C>(levelFiles: seq<File<C>>, largest: InternalKey, added: seq<File<C>>,
                                              last: InternalKey)
    requires OpenChain(levelFiles, largest, added, last)
    requires forall f :: f in levelFiles ==> !IsBoundary(f, last)
    ensures BoundaryChain(levelFiles, largest, added)
    decreases |added|
  {
    if added != [] {
      OpenChainCloses(levelFiles, added[0].largest, added[1..], last);
    }
  }

  /** No file is added twice, and none that was a start of the chain: the keys only grow. */
  lemma {:induction false} BoundaryChainGrows<C>(levelFiles: seq<File<C>>, largest: InternalKey, added: seq<File<C>>)
    requires BoundaryChain(levelFiles, largest, added) && RangesOk(levelFiles)
    ensures forall i :: 0 <= i < |added| ==> added[i] in levelFiles && Before(largest, added[i].smallest)
    ensures forall i, j :: 0 <= i < j < |added| ==> Before(added[i].largest, added[j].smallest)
    decreases |added|
  {
    if added != [] {
      var rest := added[1..];
      BoundaryChainGrows(levelFiles, added[0].largest, rest);
      assert RangeOk(added[0]);
      forall i, j | 0 <= i < j < |added|
        ensures Before(added[i].largest, added[j].smallest)
      {
        assert added[j] == rest[j - 1];
        if i > 0 { assert added[i] == rest[i - 1]; }
      }
      forall i | 0 <= i < |added|
        ensures added[i] in levelFiles && Before(largest, added[i].smallest)
      {
        if i > 0 { assert added[i] == rest[i - 1]; }
      }
    }
  }

  method AddBoundaryInputs<C>(levelFiles: seq<File<C>>, files: seq<File<C>>) returns (result: seq<File<C>>)
    requires RangesOk(levelFiles)
    ensures files == [] ==> result == []
    ensures files != [] ==> exists largest, added ::
      IsLargest(files, largest) && BoundaryChain(levelFiles, largest, added) && result == files + added
  {
    result := files;
    var found := FindLargestKey(files);
    if found.None? {
      return;
    }
    var largest := found.value;
    ghost var added := [];
    var continueSearching := true;
    while continueSearching
      invariant result == files + added && OpenChain(levelFiles, found.value, added, largest)
      invariant !continueSearching ==> forall f :: f in levelFiles ==> !IsBoundary(f, largest)
      decreases StartsAfter(levelFiles, largest), continueSearching
    {
      var boundary := FindSmallestBoundaryFile(levelFiles, largest);
      if boundary.Some? {
        OpenChainExtends(levelFiles, found.value, added, largest, boundary.value);
        ghost var before := largest;
        result, added := result + [boundary.value], added + [boundary.value];
        largest := boundary.value.largest;
        assert RangeOk(boundary.value);
        ghost var k :| 0 <= k < |levelFiles| && levelFiles[k] == boundary.value;
        assert k in StartsAfter(levelFiles, before) && k !in StartsAfter(levelFiles, largest);
      } else {
        continueSearching := false;
      }
    }
    OpenChainCloses(levelFiles, found.value, added, largest);
  }

  /** A run of neighbouring files of a sorted level after which the user key changes. */
  ghost predicate IsCleanSlice<C>(files: seq<File<C>>, inputs: seq<File<C>>, a: nat, b: nat) {
    a < b <= |files| && inputs == files[a..b]
    && (b < |files| ==> files[b - 1].largest.user < files[b].smallest.user)
  }

  /** In a sorted level, a boundary file exists only if the neighbour continues the user key, and is the neighbour. */
  lemma BoundaryIsNeighbour<C>(files: seq<File<C>>, b: nat, f: File<C>)
    requires RangesOk(files) && LevelSorted(files) && 0 < b <= |files|
    requires IsNextBoundary(files, files[b - 1].largest, f)
    ensures b < |files| && f == files[b]
  {
    var k :| 0 <= k < |files| && files[k] == f;
    assert RangeOk(files[k]) && RangeOk(files[b - 1]);
    assert k >= b;
    assert files[b] in files && RangeOk(files[b]);
    assert Precedes(files[b - 1].largest, files[b].smallest);
    assert IsBoundary(files[b], files[b - 1].largest);
  }

  /** In a sorted level, boundary files extend a run of neighbours until the user key changes. */
  lemma {:induction false} BoundariesExtendSlice<C>(files: seq<File<C>>, a: nat, b: nat, added: seq<File<C>>)
    requires RangesOk(files) && LevelSorted(files) && a < b <= |files|
    requires BoundaryChain(files, files[b - 1].largest, added)
    ensures b + |added| <= |files| && IsCleanSlice(files, files[a..b] + added, a, b + |added|)
    decreases |added|
  {
    if added == [] {
      if b < |files| {
        assert Precedes(files[b - 1].largest, files[b].smallest);
        assert files[b] in files;
      }
    } else {
      BoundaryIsNeighbour(files, b, added[0]);
      BoundariesExtendSlice(files, a, b + 1, added[1..]);
      assert files[a..b] + added == files[a..b + 1] + added[1..];
    }
  }

  /** The files of a level-0 overlap set have no boundary files: any such file overlaps the set. */
  lemma NoBoundaryInClosedSet<C(!new)>(files: seq<File<C>>, lo: Bound, hi: Bound, largest: InternalKey,
                                       added: seq<File<C>>)
    requires RangesOk(files) && Closed(files, lo, hi)
    requires IsLargest(Overlapping(files, lo, hi), largest) && BoundaryChain(files, largest, added)
    ensures added == []
  {
    OverlappingMembers(files, lo, hi);
    if added != [] {
      var f := added[0];
      var inputs := Overlapping(files, lo, hi);
      var k :| 0 <= k < |inputs| && inputs[k].largest == largest;
      var g := inputs[k];
      assert g in inputs;
      assert RangeOk(f) && RangeOk(g);
      assert Overlaps(f, lo, hi);
    }
  }

  /** The first `n` files that overlap the range are the neighbours `a .. b`; a later one past `end` ends the run. */
  ghost predicate IsRun<C(!new)>(files: seq<File<C>>, n: nat, begin: Bound, end: Bound, a: nat, b: nat) {
    && a <= b <= n <= |files| && Overlapping(files[..n], begin, end) == files[a..b]
    && (a < b ==> !AfterFile(begin, files[b - 1]))
    && (a < b < n ==> end.Some? && files[b].smallest.user > end.value)
  }

  lemma RunExtends<C(!new)>(files: seq<File<C>>, n: nat, begin: Bound, end: Bound, a: nat, b: nat)
    returns (a2: nat, b2: nat)
    requires n < |files| && IsRun(files, n, begin, end, a, b)
    requires 0 < n && b > a ==> files[b - 1].largest.user <= files[n].largest.user
    requires b < n ==> files[b].smallest.user <= files[n].smallest.user
    ensures IsRun(files, n + 1, begin, end, a2, b2)
  {
    OverlappingExtends(files, n, begin, end);
    a2, b2 := a, b;
    if Overlaps(files[n], begin, end) {
      assert a < b ==> b == n;
      a2, b2 := if a == b then n else a, n + 1;
      assert files[a2..n + 1] == files[a..b] + [files[n]];
    } else {
      assert files[a..b] + [] == files[a..b];
    }
  }

  /** In a sorted level the files overlapping a range are neighbours. */
  lemma OverlappingIsSlice<C(!new)>(files: seq<File<C>>, begin: Bound, end: Bound) returns (a: nat, b: nat)
    requires RangesOk(files) && LevelSorted(files)
    ensures a <= b <= |files| && Overlapping(files, begin, end) == files[a..b]
  {
    EndsIncrease(files);
    a, b := 0, 0;
    for n := 0 to |files|
      invariant IsRun(files, n, begin, end, a, b)
    {
      a, b := RunExtends(files, n, begin, end, a, b);
    }
    assert files[..|files|] == files;
  }

  /** What the callers of SetupOtherInputs start from. */
  ghost predicate StartInputs<C(!new)>(level: nat, files: seq<File<C>>, inputs: seq<File<C>>) {
    inputs != [] &&
    if level > 0 then exists a, b :: 0 <= a < b <= |files| && inputs == files[a..b]
    else exists lo, hi :: Closed(files, lo, hi) && inputs == Overlapping(files, lo, hi)
  }

  /** What a compaction takes from its own level: no file left out continues a user key of the inputs. */
  ghost predicate ChosenInputs<C(!new)>(level: nat, files: seq<File<C>>, inputs: seq<File<C>>) {
    inputs != [] &&
    if level > 0 then exists a, b :: IsCleanSlice(files, inputs, a, b)
    else exists lo, hi :: Closed(files, lo, hi) && inputs == Overlapping(files, lo, hi)
  }

  lemma BoundaryInputsAreChosen<C(!new)>(level: nat, files: seq<File<C>>, start: seq<File<C>>,
                                         largest: InternalKey, added: seq<File<C>>)
    requires RangesOk(files) && (level > 0 ==> LevelSorted(files))
    requires StartInputs(level, files, start)
    requires IsLargest(start, largest) && BoundaryChain(files, largest, added)
    ensures ChosenInputs(level, files, start + added)
  {
    if level > 0 {
      var a, b :| 0 <= a < b <= |files| && start == files[a..b];
      EndsIncrease(files);
      assert largest == files[b - 1].largest by {
        assert start[b - 1 - a] == files[b - 1];
      }
      BoundariesExtendSlice(files, a, b, added);
    } else {
      var lo, hi :| Closed(files, lo, hi) && start == Overlapping(files, lo, hi);
      hide BoundaryChain, IsLargest, RangesOk, Closed;
      NoBoundaryInClosedSet(files, lo, hi, largest, added);
      assert start + added == start;
    }
  }

  lemma OverlapSetsAreStarts<C(!new)>(level: nat, files: seq<File<C>>, begin: Bound, end: Bound, inputs: seq<File<C>>)
    requires RangesOk(files) && (level > 0 ==> LevelSorted(files))
    requires IsOverlapSet(level, files, begin, end, inputs) && inputs != []
    ensures StartInputs(level, files, inputs)
  {
    if level > 0 {
      var a, b := OverlappingIsSlice(files, begin, end);
    }
  }

  /** The files of the next level a compaction must merge with: those overlapping the user keys of its inputs. */
  ghost predicate NextLevelInputs<C(!new)>(next: seq<File<C>>, inputs0: seq<File<C>>, inputs1: seq<File<C>>) {
    exists smallest, largest :: IsRange(inputs0, smallest, largest)
      && inputs1 == Overlapping(next, Some(smallest.user), Some(largest.user))
  }

  /** The overlap set of a level around the range of some files takes in those of them that are in the level. */
  lemma RangeCatchesFiles<C(!new)>(level: nat, files: seq<File<C>>, all: seq<File<C>>, smallest: InternalKey,
                                   largest: InternalKey, inputs: seq<File<C>>, f: File<C>)
    requires IsRange(all, smallest, largest) && f in all && f in files && RangeOk(f)
    requires IsOverlapSet(level, files, Some(smallest.user), Some(largest.user), inputs)
    ensures f in inputs
  {
    OverlappingMembers(files, Some(smallest.user), Some(largest.user));
    if level == 0 {
      var lo, hi :| LeastClosed(files, Some(smallest.user), Some(largest.user), lo, hi)
                    && inputs == Overlapping(files, lo, hi);
      OverlappingMembers(files, lo, hi);
      assert Overlaps(f, lo, hi);
    }
  }

  /** With the boundary files of the level added. */
  ghost predicate IsBounded<C(!new)>(files: seq<File<C>>, start: seq<File<C>>, result: seq<File<C>>) {
    exists largest, added :: IsLargest(start, largest) && BoundaryChain(files, largest, added) && result == start + added
  }

  /** All of the level that overlaps the range of some files, with its boundary files. */
  ghost predicate IsExpansion<C(!new)>(level: nat, files: seq<File<C>>, all: seq<File<C>>, expanded: seq<File<C>>) {
    exists smallest, largest, overlapping :: IsRange(all, smallest, largest)
      && IsOverlapSet(level, files, Some(smallest.user), Some(largest.user), overlapping)
      && IsBounded(files, overlapping, expanded)
  }

  predicate WorthExpanding<C>(i0: seq<File<C>>, i1: seq<File<C>>, e0: seq<File<C>>, maxFileSize: nat) {
    |e0| > |i0| && TotalSize(i1) + TotalSize(e0) < 25 * maxFileSize
  }

  /** The inputs `i0` and `i1` grow exactly if more files of the level fit and the next level gives as many as before. */
  ghost predicate ExpandsTo<C(!new)>(next: seq<File<C>>, i0: seq<File<C>>, i1: seq<File<C>>, e0: seq<File<C>>,
                              maxFileSize: nat,
                                     inputs0: seq<File<C>>, inputs1: seq<File<C>>) {
    if !WorthExpanding(i0, i1, e0, maxFileSize) then inputs0 == i0 && inputs1 == i1
    else (exists e1 :: NextLevelInputs(next, e0, e1)
            && if |e1| == |i1| then inputs0 == e0 && inputs1 == e1 else inputs0 == i0 && inputs1 == i1)
  }

  ghost predicate Expanded<C(!new)>(level: nat, files: seq<File<C>>, next: seq<File<C>>, i0: seq<File<C>>,
                             i1: seq<File<C>>,
                                    maxFileSize: nat, inputs0: seq<File<C>>, inputs1: seq<File<C>>) {
    if i1 == [] then inputs0 == i0 && inputs1 == i1
    else (exists e0 :: IsExpansion(level, files, i0 + i1, e0) && ExpandsTo(next, i0, i1, e0, maxFileSize, inputs0, inputs1))
  }

  /** The inputs that SetupOtherInputs makes of the files it starts with. */
  ghost predicate SetUp<C(!new)>(level: nat, files: seq<File<C>>, next: seq<File<C>>, start: seq<File<C>>,
                          maxFileSize: nat,
                                 inputs0: seq<File<C>>, inputs1: seq<File<C>>) {
    exists i0, i1 :: IsBounded(files, start, i0) && NextLevelInputs(next, i0, i1)
      && Expanded(level, files, next, i0, i1, maxFileSize, inputs0, inputs1)
  }

  lemma OverlapsAreNext<C(!new)>(level: nat, next: seq<File<C>>, inputs0: seq<File<C>>, smallest: InternalKey,
                                 largest: InternalKey, inputs1: seq<File<C>>)
    requires IsRange(inputs0, smallest, largest)
    requires IsOverlapSet(level + 1, next, Some(smallest.user), Some(largest.user), inputs1)
    ensures NextLevelInputs(next, inputs0, inputs1)
  {
  }

  lemma OverlapsAreExpansion<C(!new)>(level: nat, files: seq<File<C>>, all: seq<File<C>>, smallest: InternalKey,
                                      largest: InternalKey, overlapping: seq<File<C>>, expanded: seq<File<C>>)
    requires IsRange(all, smallest, largest)
    requires IsOverlapSet(level, files, Some(smallest.user), Some(largest.user), overlapping)
    requires IsBounded(files, overlapping, expanded)
    ensures IsExpansion(level, files, all, expanded)
  {
  }

  /** AddBoundaryInputs for the inputs of a level. */
  method WithBoundaryFiles<C(!new)>(level: nat, files: seq<File<C>>, start: seq<File<C>>) returns (inputs: seq<File<C>>)
    requires RangesOk(files) && (level > 0 ==> LevelSorted(files)) && StartInputs(level, files, start)
    ensures IsBounded(files, start, inputs) && ChosenInputs(level, files, inputs) && inputs != []
    ensures forall f :: f in start ==> f in inputs
  {
    inputs := AddBoundaryInputs(files, start);
    BoundaryInputsAreChosenAll(level, files, start, inputs);
  }

  method SetupOtherInputs<C(!new)>(level: nat, files: seq<File<C>>, next: seq<File<C>>, start: seq<File<C>>,
                                   maxFileSize: nat)
    returns (inputs0: seq<File<C>>, inputs1: seq<File<C>>)
    requires RangesOk(files) && RangesOk(next) && (level > 0 ==> LevelSorted(files))
    requires StartInputs(level, files, start)
    ensures ChosenInputs(level, files, inputs0) && NextLevelInputs(next, inputs0, inputs1)
    ensures forall f :: f in start ==> f in inputs0
    ensures SetUp(level, files, next, start, maxFileSize, inputs0, inputs1)
  {
    hide RangesOk, LevelSorted, StartInputs, ChosenInputs, NextLevelInputs, IsBounded, IsOverlapSet, IsRange, Expanded;
    inputs0 := WithBoundaryFiles(level, files, start);
    var smallest, largest := GetRange(inputs0);
    inputs1 := GetOverlappingInputs(level + 1, next, Some(smallest.user), Some(largest.user));
    OverlapsAreNext(level, next, inputs0, smallest, largest, inputs1);
    var allStart, allLimit := GetRange(inputs0 + inputs1);
    ghost var i0, i1 := inputs0, inputs1;
    inputs0, inputs1 := Expand(level, files, next, inputs0, inputs1, allStart, allLimit, maxFileSize);
    assert Expanded(level, files, next, i0, i1, maxFileSize, inputs0, inputs1);
  }

  /** Takes more files of the level if that takes no more of the next. */
  method Expand<C(!new)>(level: nat, files: seq<File<C>>, next: seq<File<C>>, i0: seq<File<C>>, i1: seq<File<C>>,
                         allStart: InternalKey, allLimit: InternalKey, maxFileSize: nat)
    returns (inputs0: seq<File<C>>, inputs1: seq<File<C>>)
    requires RangesOk(files) && RangesOk(next) && (level > 0 ==> LevelSorted(files)) && i0 != []
    requires ChosenInputs(level, files, i0) && NextLevelInputs(next, i0, i1) && IsRange(i0 + i1, allStart, allLimit)
    ensures ChosenInputs(level, files, inputs0) && NextLevelInputs(next, inputs0, inputs1)
    ensures forall f :: f in i0 ==> f in inputs0
    ensures Expanded(level, files, next, i0, i1, maxFileSize, inputs0, inputs1)
  {
    hide RangesOk, LevelSorted, StartInputs, ChosenInputs, NextLevelInputs, IsBounded, IsOverlapSet, IsRange;
    hide IsExpansion, TotalSize;
    inputs0, inputs1 := i0, i1;
    if i1 != [] {
      var overlapping0 := GetOverlappingInputs(level, files, Some(allStart.user), Some(allLimit.user));
      ChosenAreCaught(level, files, i0, i1, allStart, allLimit, overlapping0);
      var expanded0 := WithBoundaryFiles(level, files, overlapping0);
      OverlapsAreExpansion(level, files, i0 + i1, allStart, allLimit, overlapping0, expanded0);
      var inputs1Size := TotalFileSize(i1);
      var expanded0Size := TotalFileSize(expanded0);
      if |expanded0| > |i0| && inputs1Size + expanded0Size < 25 * maxFileSize {
        var newStart, newLimit := GetRange(expanded0);
        var expanded1 := GetOverlappingInputs(level + 1, next, Some(newStart.user), Some(newLimit.user));
        OverlapsAreNext(level, next, expanded0, newStart, newLimit, expanded1);
        if |expanded1| == |i1| {
          inputs0, inputs1 := expanded0, expanded1;
        }
      }
    }
  }

  lemma ChosenAreCaught<C(!new)>(level: nat, files: seq<File<C>>, i0: seq<File<C>>, i1: seq<File<C>>,
                          allStart: InternalKey,
                                 allLimit: InternalKey, overlapping: seq<File<C>>)
    requires RangesOk(files) && (level > 0 ==> LevelSorted(files)) && i0 != []
    requires ChosenInputs(level, files, i0) && IsRange(i0 + i1, allStart, allLimit)
    requires IsOverlapSet(level, files, Some(allStart.user), Some(allLimit.user), overlapping)
    ensures StartInputs(level, files, overlapping) && forall f :: f in i0 ==> f in overlapping
  {
    hide StartInputs, ChosenInputs, IsRange, IsOverlapSet, LevelSorted;
    ChosenAreInLevel(level, files, i0);
    forall f | f in i0
      ensures f in overlapping
    {
      assert f in files && RangeOk(f);
      RangeCatchesFiles(level, files, i0 + i1, allStart, allLimit, overlapping, f);
    }
    assert i0[0] in overlapping;
    OverlapSetsAreStarts(level, files, Some(allStart.user), Some(allLimit.user), overlapping);
  }

  lemma BoundaryInputsAreChosenAll<C(!new)>(level: nat, files: seq<File<C>>, start: seq<File<C>>, result: seq<File<C>>)
    requires RangesOk(files) && (level > 0 ==> LevelSorted(files))
    requires StartInputs(level, files, start)
    requires exists largest, added ::
      IsLargest(start, largest) && BoundaryChain(files, largest, added) && result == start + added
    ensures ChosenInputs(level, files, result)
    ensures forall f :: f in start ==> f in result
  {
    var largest, added :|
      IsLargest(start, largest) && BoundaryChain(files, largest, added) && result == start + added;
    BoundaryInputsAreChosen(level, files, start, largest, added);
  }

  lemma ChosenAreInLevel<C(!new)>(level: nat, files: seq<File<C>>, inputs: seq<File<C>>)
    requires ChosenInputs(level, files, inputs)
    ensures forall f :: f in inputs ==> f in files
  {
    if level == 0 {
      var lo, hi :| Closed(files, lo, hi) && inputs == Overlapping(files, lo, hi);
      OverlappingMembers(files, lo, hi);
    }
  }

  /** A compaction of a file starts with it; at level 0 with all that overlap it. */
  ghost predicate StartsAround<C(!new)>(level: nat, files: seq<File<C>>, f: File<C>, start: seq<File<C>>) {
    if level > 0 then start == [f]
    else (exists smallest, largest :: IsRange([f], smallest, largest)
            && IsOverlapSet(0, files, Some(smallest.user), Some(largest.user), start))
  }

  ghost predicate SetUpAround<C(!new)>(level: nat, files: seq<File<C>>, next: seq<File<C>>, f: File<C>, maxFileSize: nat,
                                       inputs0: seq<File<C>>, inputs1: seq<File<C>>) {
    exists start :: StartsAround(level, files, f, start) && SetUp(level, files, next, start, maxFileSize, inputs0, inputs1)
  }

  /** A compaction of `level` around one of its files. */
  method CompactAround<C(!new)>(level: nat, files: seq<File<C>>, next: seq<File<C>>, f: File<C>, maxFileSize: nat)
    returns (inputs0: seq<File<C>>, inputs1: seq<File<C>>)
    requires RangesOk(files) && RangesOk(next) && (level > 0 ==> LevelSorted(files)) && f in files
    ensures ChosenInputs(level, files, inputs0) && NextLevelInputs(next, inputs0, inputs1) && f in inputs0
    ensures SetUpAround(level, files, next, f, maxFileSize, inputs0, inputs1)
  {
    hide SetUp, ChosenInputs, NextLevelInputs, LevelSorted;
    var start := [f];
    if level == 0 {
      var smallest, largest := GetRange(start);
      start := GetOverlappingInputs(0, files, Some(smallest.user), Some(largest.user));
      RangeCatchesFiles(0, files, [f], smallest, largest, start, f);
      OverlapSetsAreStarts(0, files, Some(smallest.user), Some(largest.user), start);
    } else {
      ghost var i :| 0 <= i < |files| && files[i] == f;
      assert start == files[i..i + 1];
    }
    inputs0, inputs1 := SetupOtherInputs(level, files, next, start, maxFileSize);
    assert f in start && StartsAround(level, files, f, start);
  }

  /** The first file past the pointer; the first of all if there is no pointer or no file is past it. */
  ghost predicate IsPicked<C>(files: seq<File<C>>, compactPointer: Option<InternalKey>, f: File<C>)
    requires files != []
  {
    if compactPointer.None? || (forall g :: g in files ==> !Before(compactPointer.value, g.largest)) then f == files[0]
    else (exists i :: 0 <= i < |files| && f == files[i] && Before(compactPointer.value, f.largest)
            && forall k :: 0 <= k < i ==> !Before(compactPointer.value, files[k].largest))
  }

  /** The first file of a level past the place the last compaction stopped at, or the first file of all. */
  method PickFile<C>(files: seq<File<C>>, compactPointer: Option<InternalKey>) returns (f: File<C>)
    requires files != []
    ensures f in files && IsPicked(files, compactPointer, f)
  {
    for i := 0 to |files|
      invariant i > 0 ==> compactPointer.Some?
      invariant compactPointer.Some? ==> forall k :: 0 <= k < i ==> !Before(compactPointer.value, files[k].largest)
    {
      if compactPointer.None? || Before(compactPointer.value, files[i].largest) {
        return files[i];
      }
    }
    f := files[0];
  }

  /** Above level 0 the files of a range are taken up to the first at which their total size reaches the limit. */
  ghost predicate IsCutOff<C>(level: nat, all: seq<File<C>>, limit: nat, start: seq<File<C>>) {
    if level == 0 then start == all
    else
      && 0 < |start| <= |all| && start == all[..|start|] && (|start| < |all| ==> TotalSize(start) >= limit)
      && forall k :: 0 < k < |start| ==> TotalSize(all[..k]) < limit
  }

  ghost predicate SetUpInRange<C(!new)>(level: nat, files: seq<File<C>>, next: seq<File<C>>, begin: Bound, end: Bound,
                                        maxFileSize: nat, inputs0: seq<File<C>>, inputs1: seq<File<C>>) {
    exists all, start :: IsOverlapSet(level, files, begin, end, all) && IsCutOff(level, all, maxFileSize, start)
      && SetUp(level, files, next, start, maxFileSize, inputs0, inputs1)
  }

  /** Avoids compacting too much at once. */
  method CutOff<C>(all: seq<File<C>>, limit: nat) returns (start: seq<File<C>>)
    requires all != []
    ensures forall level :: level > 0 ==> IsCutOff(level, all, limit, start)
  {
    start := all;
    var total := 0;
    for i := 0 to |all|
      invariant start == all && total == TotalSize(all[..i]) && (i > 0 ==> total < limit)
      invariant forall k :: 0 < k < i ==> TotalSize(all[..k]) < limit
    {
      assert all[..i + 1][..i] == all[..i];
      total := total + all[i].size;
      if total >= limit {
        start := all[..i + 1];
        return;
      }
    }
    assert all[..|all|] == all;
  }

  lemma CutOffStarts<C(!new)>(level: nat, files: seq<File<C>>, all: seq<File<C>>, limit: nat, start: seq<File<C>>)
    requires StartInputs(level, files, all) && IsCutOff(level, all, limit, start)
    ensures StartInputs(level, files, start) && start[0] == all[0]
  {
    if level > 0 {
      var a, b :| 0 <= a < b <= |files| && all == files[a..b];
      assert start == files[a..a + |start|];
    }
  }

  /** A manual compaction of a range: above level 0 it is cut off once the files reach the size limit. */
  method CompactRange<C(!new)>(level: nat, files: seq<File<C>>, next: seq<File<C>>, begin: Bound, end: Bound,
                               maxFileSize: nat)
    returns (inputs0: seq<File<C>>, inputs1: seq<File<C>>)
    requires RangesOk(files) && RangesOk(next) && (level > 0 ==> LevelSorted(files))
    ensures inputs0 == [] <==> IsOverlapSet(level, files, begin, end, [])
    ensures inputs0 != [] ==> ChosenInputs(level, files, inputs0) && NextLevelInputs(next, inputs0, inputs1)
    ensures forall all :: IsOverlapSet(level, files, begin, end, all) && all != [] ==>
      (all[0] in inputs0 && (level == 0 ==> forall f :: f in all ==> f in inputs0))
    ensures inputs0 != [] ==> SetUpInRange(level, files, next, begin, end, maxFileSize, inputs0, inputs1)
  {
    hide SetUp, ChosenInputs, NextLevelInputs, RangesOk, LevelSorted, StartInputs, IsOverlapSet, IsCutOff;
    var all := GetOverlappingInputs(level, files, begin, end);
    OverlapSetIsUnique(level, files, begin, end, all);
    inputs0, inputs1 := [], [];
    if all == [] {
      return;
    }
    OverlapSetsAreStarts(level, files, begin, end, all);
    var inputs := all;
    NothingCutOff(all, maxFileSize);
    if level > 0 {
      inputs := CutOff(all, maxFileSize);
    }
    CutOffStarts(level, files, all, maxFileSize, inputs);
    StartIsNotEmpty(level, files, inputs);
    inputs0, inputs1 := SetupOtherInputs(level, files, next, inputs, maxFileSize);
    assert inputs[0] in inputs;
  }

  lemma NothingCutOff<C>(all: seq<File<C>>, limit: nat)
    ensures IsCutOff(0, all, limit, all)
  {
  }

  lemma StartIsNotEmpty<C(!new)>(level: nat, files: seq<File<C>>, start: seq<File<C>>)
    requires StartInputs(level, files, start)
    ensures start != []
  {
  }

  lemma OverlapSetIsUnique<C(!new)>(level: nat, files: seq<File<C>>, begin: Bound, end: Bound, inputs: seq<File<C>>)
    requires IsOverlapSet(level, files, begin, end, inputs)
    ensures forall other :: IsOverlapSet(level, files, begin, end, other) ==> other == inputs
  {
    if level == 0 {
      forall other | IsOverlapSet(level, files, begin, end, other)
        ensures other == inputs
      {
        var lo1, hi1 :| LeastClosed(files, begin, end, lo1, hi1) && inputs == Overlapping(files, lo1, hi1);
        var lo2, hi2 :| LeastClosed(files, begin, end, lo2, hi2) && other == Overlapping(files, lo2, hi2);
        LeastClosedIsUnique(files, begin, end, lo1, hi1, lo2, hi2);
      }
    }
  }
}
