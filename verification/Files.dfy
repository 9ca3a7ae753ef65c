/**
 * File metadata and the searches over a level's file list (db/version_set.cc).
 *
 * A file carries its contents as a type parameter: the storage engine's files hold their entries, the
 * files named by a manifest hold nothing.
 */
module Files {
  import opened Wrappers
  import opened InternalKeys

  datatype File<+C> = File(number: nat, size: nat, smallest: InternalKey, largest: InternalKey, contents: C)

  /** The key range of a file is not empty and its sequence numbers fit in 56 bits. */
  ghost predicate RangeOk<C>(f: File<C>) {
    !Before(f.largest, f.smallest) && f.smallest.seqno <= MAX_SEQUENCE && f.largest.seqno <= MAX_SEQUENCE
  }

  ghost predicate RangesOk<C>(files: seq<File<C>>) {
    forall f :: f in files ==> RangeOk(f)
  }

  /** The files of a level above zero: sorted, with disjoint ranges of internal keys. */
  ghost predicate LevelSorted<C>(files: seq<File<C>>) {
    forall i, j :: 0 <= i < j < |files| ==> Precedes(files[i].largest, files[j].smallest)
  }

  /** In a sorted level both ends of the ranges increase from file to file. */
  lemma EndsIncrease<C>(files: seq<File<C>>)
    requires RangesOk(files) && LevelSorted(files)
    ensures forall i, j :: 0 <= i < j < |files| ==> Before(files[i].largest, files[j].largest)
    ensures forall i, j :: 0 <= i < j < |files| ==> Before(files[i].smallest, files[j].smallest)
  {
    forall i, j | 0 <= i < j < |files|
      ensures Before(files[i].largest, files[j].largest) && Before(files[i].smallest, files[j].smallest)
    {
      assert files[i] in files && files[j] in files;
    }
  }

  /** Null bounds are infinitely small or large. */
  predicate AfterFile<C>(u: Option<UserKey>, f: File<C>) {
    u.Some? && u.value > f.largest.user
  }

  predicate BeforeFile<C>(u: Option<UserKey>, f: File<C>) {
    u.Some? && u.value < f.smallest.user
  }

  predicate Overlaps<C>(f: File<C>, begin: Option<UserKey>, end: Option<UserKey>) {
    !AfterFile(begin, f) && !BeforeFile(end, f)
  }

  /** The earliest file whose largest key is at or after `key`. */
  method FindFile<C>(files: seq<File<C>>, key: InternalKey) returns (index: nat)
    requires RangesOk(files) && LevelSorted(files)
    ensures index <= |files|
    ensures forall i :: 0 <= i < index ==> Before(files[i].largest, key)
    ensures forall i :: index <= i < |files| ==> !Before(files[i].largest, key)
  {
    EndsIncrease(files);
    var left, right := 0, |files|;
    while left < right
      invariant 0 <= left <= right <= |files|
      invariant forall i :: 0 <= i < left ==> Before(files[i].largest, key)
      invariant forall i :: right <= i < |files| ==> !Before(files[i].largest, key)
    {
      var mid := (left + right) / 2;
      if Before(files[mid].largest, key) {
        left := mid + 1;
      } else {
        right := mid;
      }
    }
    index := right;
  }

  method SomeFileOverlapsRange<C>(disjointSorted: bool, files: seq<File<C>>,
                                  smallest: Option<UserKey>, largest: Option<UserKey>)
    returns (overlap: bool)
    requires RangesOk(files) && (disjointSorted ==> LevelSorted(files))
    ensures overlap <==> exists f :: f in files && Overlaps(f, smallest, largest)
  {
    if !disjointSorted {
      for i := 0 to |files|
        invariant forall k :: 0 <= k < i ==> !Overlaps(files[k], smallest, largest)
      {
        if !(AfterFile(smallest, files[i]) || BeforeFile(largest, files[i])) {
          assert Overlaps(files[i], smallest, largest);
          return true;
        }
      }
      return false;
    }
    var index := 0;
    if smallest.Some? {
      index := FindFile(files, InternalKey(smallest.value, MAX_SEQUENCE, Value));
    }
    if index >= |files| {
      return false;
    }
    overlap := !BeforeFile(largest, files[index]);
    assert files[index] in files;
    assert overlap ==> Overlaps(files[index], smallest, largest);
    EndsIncrease(files);
    forall f | f in files && !overlap
      ensures !Overlaps(f, smallest, largest)
    {
      var i :| 0 <= i < |files| && files[i] == f;
    }
  }

  function TotalSize<C>(files: seq<File<C>>): nat {
    if files == [] then 0 else TotalSize(files[..|files| - 1]) + files[|files| - 1].size
  }

  method TotalFileSize<C>(files: seq<File<C>>) returns (sum: nat)
    ensures sum == TotalSize(files)
  {
    sum := 0;
    for i := 0 to |files|
      invariant sum == TotalSize(files[..i])
    {
      sum := sum + files[i].size;
      assert files[..i + 1][..i] == files[..i];
    }
    assert files[..|files|] == files;
  }

  /** `smallest` and `largest` are the ends of the least range covering every file. */
  ghost predicate IsRange<C>(files: seq<File<C>>, smallest: InternalKey, largest: InternalKey) {
    && (exists f :: f in files && f.smallest == smallest)
    && (exists f :: f in files && f.largest == largest)
    && (forall f :: f in files ==> !Before(f.smallest, smallest) && !Before(largest, f.largest))
  }

  method GetRange<C>(files: seq<File<C>>) returns (smallest: InternalKey, largest: InternalKey)
    requires files != []
    ensures IsRange(files, smallest, largest)
  {
    smallest, largest := files[0].smallest, files[0].largest;
    for i := 1 to |files|
      invariant IsRange(files[..i], smallest, largest)
    {
      ghost var old1, old2 := smallest, largest;
      if Before(files[i].smallest, smallest) {
        smallest := files[i].smallest;
      }
      if Before(largest, files[i].largest) {
        largest := files[i].largest;
      }
      RangeExtends(files[..i], files[i], old1, old2);
      assert files[..i + 1] == files[..i] + [files[i]];
    }
    assert files[..|files|] == files;
  }

  lemma RangeExtends<C>(files: seq<File<C>>, f: File<C>, smallest: InternalKey, largest: InternalKey)
    requires IsRange(files, smallest, largest)
    ensures IsRange(files + [f], if Before(f.smallest, smallest) then f.smallest else smallest,
                    if Before(largest, f.largest) then f.largest else largest)
  {
    var a :| a in files && a.smallest == smallest;
    var b :| b in files && b.largest == largest;
    assert a in files + [f] && b in files + [f] && f in files + [f];
  }
}
