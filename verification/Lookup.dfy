/** Point lookups in a version (db/version_set.cc, Version::Get; db/memtable.cc, MemTable::Get). */
module Lookup {
  import opened InternalKeys
  import opened Files
  import opened Compactions

  /** The outcome of a search: `NotFound` lets the search go on in older data. */
  datatype Saver = NotFound | Found(value: Bytes) | Deleted

  ghost predicate TableOk(f: Table) {
    && f.contents != [] && Sorted(f.contents)
    && f.smallest == f.contents[0].key && f.largest == f.contents[|f.contents| - 1].key
    && (forall e :: e in f.contents ==> e.key.seqno <= MAX_SEQUENCE)
  }

  ghost predicate TablesOk(files: seq<Table>) {
    forall f :: f in files ==> TableOk(f)
  }

  /** Every file of `a` is newer than every file of `b`. */
  ghost predicate LevelNewer(a: seq<Table>, b: seq<Table>) {
    forall f, g :: f in a && g in b ==> Newer(f.contents, g.contents)
  }

  ghost predicate DistinctNumbers(files: seq<Table>) {
    forall f, g :: f in files && g in files && f.number == g.number ==> f == g
  }

  /** In level 0 a larger file number means newer data. */
  ghost predicate NumberedByAge(files: seq<Table>) {
    forall f, g :: f in files && g in files && f.number > g.number ==> Newer(f.contents, g.contents)
  }

  /** Every level but the first is sorted; data only gets older from level to level and, in level 0, from file
      to file in the order of their numbers. */
  ghost predicate VersionOk(levels: seq<seq<Table>>) {
    && |levels| == NUM_LEVELS
    && (forall l {:trigger TablesOk(levels[l])} :: 0 <= l < |levels| ==> TablesOk(levels[l]))
    && (forall l {:trigger LevelSorted(levels[l])} :: 1 <= l < |levels| ==> LevelSorted(levels[l]))
    && NumberedByAge(levels[0]) && DistinctNumbers(levels[0])
    && (forall i, j {:trigger LevelNewer(levels[i], levels[j])} ::
          0 <= i < j < |levels| ==> LevelNewer(levels[i], levels[j]))
  }

  /** The entries of some files. */
  ghost function EntriesIn(files: seq<Table>): set<Entry> {
    set f, e | f in files && e in f.contents :: e
  }

  /** The entries of the levels from `from` on. */
  ghost function EntriesFrom(levels: seq<seq<Table>>, from: nat): set<Entry> {
    set l, f, e | from <= l < |levels| && f in levels[l] && e in f.contents :: e
  }

  ghost predicate NoneVisible(all: set<Entry>, u: UserKey, s: nat) {
    forall e :: e in all ==> !Visible(e, u, s)
  }

  /** `r` is what a reader of `u` at snapshot `s` must get from `all`. */
  ghost predicate Answers(all: set<Entry>, u: UserKey, s: nat, r: Saver) {
    match r
    case NotFound => NoneVisible(all, u, s)
    case Found(v) => exists e :: IsNewest(all, u, s, e) && e.key.kind == Value && e.value == v
    case Deleted => exists e :: IsNewest(all, u, s, e) && e.key.kind == Deletion
  }

  ghost predicate NewerSet(a: set<Entry>, b: set<Entry>) {
    forall x, y :: x in a && y in b && x.key.user == y.key.user ==> x.key.seqno > y.key.seqno
  }

  /** Searching newer data first, the first hit answers for all of it; a miss passes the question on. */
  lemma FirstHitAnswers(a: set<Entry>, b: set<Entry>, u: UserKey, s: nat, r: Saver)
    requires r != NotFound && Answers(a, u, s, r) && NewerSet(a, b)
    ensures Answers(a + b, u, s, r)
  {
    var e :| IsNewest(a, u, s, e) && e.key.kind == (if r.Deleted? then Deletion else Value)
             && (r.Found? ==> e.value == r.value);
    assert IsNewest(a + b, u, s, e);
  }

  lemma MissPassesOn(a: set<Entry>, b: set<Entry>, u: UserKey, s: nat, r: Saver)
    requires NoneVisible(a, u, s) && Answers(b, u, s, r)
    ensures Answers(a + b, u, s, r)
  {
    if r != NotFound {
      var e :| IsNewest(b, u, s, e) && e.key.kind == (if r.Deleted? then Deletion else Value)
               && (r.Found? ==> e.value == r.value);
      assert IsNewest(a + b, u, s, e);
    }
  }

  /** The position of the first entry at or after `key`. */
  function SeekIndex(run: seq<Entry>, key: InternalKey): (i: nat)
    ensures i <= |run| && forall k :: 0 <= k < i ==> Before(run[k].key, key)
    ensures i < |run| ==> !Before(run[i].key, key)
  {
    if run == [] || !Before(run[0].key, key) then 0
    else
      var i := 1 + SeekIndex(run[1..], key);
      assert forall k :: 1 <= k < i ==> run[k] == run[1..][k - 1];
      i
  }

  ghost function EntrySet(run: seq<Entry>): set<Entry> {
    set e | e in run
  }

  /** Seek to the lookup key and look at the one entry found: TableCache::Get with SaveValue, and MemTable::Get. */
  function RunGet(run: seq<Entry>, u: UserKey, s: nat): (r: Saver) {
    var i := SeekIndex(run, SeekKey(u, s));
    if i == |run| || run[i].key.user != u then NotFound
    else if run[i].key.kind == Value then Found(run[i].value)
    else Deleted
  }

  lemma RunGetAnswers(run: seq<Entry>, u: UserKey, s: nat)
    requires Sorted(run)
    ensures Answers(EntrySet(run), u, s, RunGet(run, u, s))
  {
    var i := SeekIndex(run, SeekKey(u, s));
    forall k | 0 <= k < |run| && Visible(run[k], u, s)
      ensures i < |run| && run[i].key.user == u && run[k].key.seqno <= run[i].key.seqno
    {
      assert k >= i;
    }
    if i < |run| && run[i].key.user == u {
      assert IsNewest(EntrySet(run), u, s, run[i]);
    }
  }

  /** In a sorted level only the file FindFile returns can hold the newest visible entry, even when the entries
      of the user key go on in the next file. */
  lemma OneFilePerLevel(files: seq<Table>, index: nat, u: UserKey, s: nat, r: Saver)
    requires TablesOk(files) && LevelSorted(files) && index <= |files|
    requires forall i :: 0 <= i < index ==> Before(files[i].largest, SeekKey(u, s))
    requires forall i :: index <= i < |files| ==> !Before(files[i].largest, SeekKey(u, s))
    requires r == if index < |files| && files[index].smallest.user <= u
                  then RunGet(files[index].contents, u, s) else NotFound
    ensures Answers(EntriesIn(files), u, s, r)
  {
    var all := EntriesIn(files);
    forall k, e | 0 <= k < |files| && e in files[k].contents && Visible(e, u, s)
      ensures index < |files| && files[index].smallest.user <= u && index <= k
      ensures k > index ==> files[index].largest.user == u && files[index].largest.seqno > e.key.seqno
    {
      var f := files[k];
      assert f in files && TableOk(f);
      var j :| 0 <= j < |f.contents| && f.contents[j] == e;
      if k > index {
        var g := files[index];
        assert g in files && TableOk(g) && Precedes(g.largest, f.smallest);
      }
    }
    if index < |files| && files[index].smallest.user <= u {
      var f := files[index];
      assert f in files && TableOk(f);
      RunGetAnswers(f.contents, u, s);
      if r == NotFound {
        assert f.contents[|f.contents| - 1] in f.contents;
      } else {
        var e :| IsNewest(EntrySet(f.contents), u, s, e) && e.key.kind == (if r.Deleted? then Deletion else Value)
                 && (r.Found? ==> e.value == r.value);
        assert f.contents[|f.contents| - 1] in EntrySet(f.contents);
        assert IsNewest(all, u, s, e);
      }
    }
  }

  ghost predicate NewestFirst(files: seq<Table>) {
    forall i, j :: 0 <= i < j < |files| ==> files[i].number >= files[j].number
  }

  function InsertNewest(sorted: seq<Table>, f: Table): (r: seq<Table>)
    ensures |r| == |sorted| + 1 && forall g :: g in r <==> g in sorted || g == f
  {
    if sorted == [] || sorted[0].number <= f.number then [f] + sorted
    else
      assert sorted == [sorted[0]] + sorted[1..];
      [sorted[0]] + InsertNewest(sorted[1..], f)
  }

  lemma {:induction false} InsertNewestSorts(sorted: seq<Table>, f: Table)
    requires NewestFirst(sorted)
    ensures NewestFirst(InsertNewest(sorted, f))
  {
    if !(sorted == [] || sorted[0].number <= f.number) {
      var rest := InsertNewest(sorted[1..], f);
      InsertNewestSorts(sorted[1..], f);
      forall j | 0 <= j < |rest|
        ensures rest[j].number <= sorted[0].number
      {
        assert rest[j] in rest;
      }
    }
  }

  /** Newest file first, as std::sort does with NewestFirst. */
  method SortNewestFirst(files: seq<Table>) returns (sorted: seq<Table>)
    ensures |sorted| == |files| && forall f :: f in sorted <==> f in files
    ensures NewestFirst(sorted)
  {
    sorted := [];
    for i := 0 to |files|
      invariant |sorted| == i && (forall f :: f in sorted <==> f in files[..i])
      invariant NewestFirst(sorted)
    {
      InsertNewestSorts(sorted, files[i]);
      sorted := InsertNewest(sorted, files[i]);
      assert files[..i + 1] == files[..i] + [files[i]];
    }
    assert files[..|files|] == files;
  }

  /** Level 0: every file whose range contains the user key, the newest first. */
  method Level0Get(files: seq<Table>, u: UserKey, s: nat) returns (r: Saver)
    requires TablesOk(files)
    requires NumberedByAge(files) && DistinctNumbers(files)
    ensures Answers(EntriesIn(files), u, s, r)
  {
    var tmp := [];
    for i := 0 to |files|
      invariant forall f :: f in tmp <==> f in files[..i] && f.smallest.user <= u <= f.largest.user
    {
      assert files[..i + 1] == files[..i] + [files[i]];
      if files[i].smallest.user <= u <= files[i].largest.user {
        tmp := tmp + [files[i]];
      }
    }
    assert files[..|files|] == files;
    tmp := SortNewestFirst(tmp);
    assert CandidatesOf(files, tmp, u);
    r := NotFound;
    for i := 0 to |tmp|
      invariant r == NotFound && NoneVisible(EntriesIn(tmp[..i]), u, s)
    {
      assert tmp[i] in tmp;
      RunGetAnswers(tmp[i].contents, u, s);
      r := RunGet(tmp[i].contents, u, s);
      if r != NotFound {
        Level0Hit(files, tmp, i, u, s, r);
        return;
      }
      EntriesInExtends(tmp, i);
    }
    assert tmp[..|tmp|] == tmp;
    Level0Miss(files, tmp, u, s);
  }

  ghost predicate CandidatesOf(files: seq<Table>, tmp: seq<Table>, u: UserKey) {
    && TablesOk(files)
    && forall f :: f in tmp <==> f in files && f.smallest.user <= u <= f.largest.user
  }

  /** A file whose range does not contain the user key holds no entry of it. */
  lemma RangeExcludes(f: Table, u: UserKey)
    requires TableOk(f)
    ensures !(f.smallest.user <= u <= f.largest.user) ==> forall e :: e in f.contents ==> e.key.user != u
  {
  }

  lemma Level0Miss(files: seq<Table>, tmp: seq<Table>, u: UserKey, s: nat)
    requires CandidatesOf(files, tmp, u) && NoneVisible(EntriesIn(tmp), u, s)
    ensures NoneVisible(EntriesIn(files), u, s)
  {
    forall f, e | f in files && e in f.contents
      ensures !Visible(e, u, s)
    {
      if f.smallest.user <= u <= f.largest.user {
        assert e in EntriesIn(tmp);
      } else {
        RangeExcludes(f, u);
      }
    }
  }

  lemma Level0Hit(files: seq<Table>, tmp: seq<Table>, i: nat, u: UserKey, s: nat, r: Saver)
    requires CandidatesOf(files, tmp, u) && i < |tmp| && NoneVisible(EntriesIn(tmp[..i]), u, s)
    requires NewestFirst(tmp)
    requires NumberedByAge(files) && DistinctNumbers(files)
    requires r != NotFound && Answers(EntrySet(tmp[i].contents), u, s, r)
    ensures Answers(EntriesIn(files), u, s, r)
  {
    var f := tmp[i];
    assert f in tmp;
    var e :| IsNewest(EntrySet(f.contents), u, s, e) && e.key.kind == (if r.Deleted? then Deletion else Value)
             && (r.Found? ==> e.value == r.value);
    assert forall g, x :: g in tmp[..i] && x in g.contents ==> x in EntriesIn(tmp[..i]);
    forall g, x | g in files && x in g.contents && Visible(x, u, s)
      ensures x.key.seqno <= e.key.seqno
    {
      if g == f {
        assert x in EntrySet(f.contents);
      } else {
        OtherFileIsOlder(files, tmp, i, u, g, x);
      }
    }
    assert IsNewest(EntriesIn(files), u, s, e);
  }

  /** Apart from the files already searched, the other files are older than the one that is hit. */
  lemma OtherFileIsOlder(files: seq<Table>, tmp: seq<Table>, i: nat, u: UserKey, g: Table, x: Entry)
    requires CandidatesOf(files, tmp, u) && i < |tmp| && NewestFirst(tmp)
    requires NumberedByAge(files) && DistinctNumbers(files)
    requires g in files && g != tmp[i] && g !in tmp[..i] && x in g.contents && x.key.user == u
    ensures Newer(tmp[i].contents, g.contents)
  {
    RangeExcludes(g, u);
    var k :| 0 <= k < |tmp| && tmp[k] == g;
    assert tmp[i] in tmp && tmp[i].number >= g.number;
  }

  lemma EntriesInExtends(files: seq<Table>, i: nat)
    requires i < |files|
    ensures EntriesIn(files[..i + 1]) == EntriesIn(files[..i]) + EntrySet(files[i].contents)
  {
    assert files[..i + 1] == files[..i] + [files[i]];
  }

  lemma LevelsSplit(levels: seq<seq<Table>>, l: nat)
    requires l < |levels|
    ensures EntriesFrom(levels, l) == EntriesIn(levels[l]) + EntriesFrom(levels, l + 1)
  {
    var deeper := EntriesFrom(levels, l + 1);
    forall e | e in EntriesFrom(levels, l)
      ensures e in EntriesIn(levels[l]) + deeper
    {
      var k, f :| l <= k < |levels| && f in levels[k] && e in f.contents;
      if k > l { assert e in deeper; }
    }
  }

  lemma LevelIsNewer(levels: seq<seq<Table>>, l: nat)
    requires VersionOk(levels) && l < |levels|
    ensures NewerSet(EntriesIn(levels[l]), EntriesFrom(levels, l + 1))
  {
    forall x, y | x in EntriesIn(levels[l]) && y in EntriesFrom(levels, l + 1) && x.key.user == y.key.user
      ensures x.key.seqno > y.key.seqno
    {
      var f :| f in levels[l] && x in f.contents;
      var k, g :| l + 1 <= k < |levels| && g in levels[k] && y in g.contents;
      assert LevelNewer(levels[l], levels[k]);
    }
  }

  /** A hit in a level answers for it and all deeper levels. */
  lemma LevelHit(levels: seq<seq<Table>>, l: nat, u: UserKey, s: nat, r: Saver)
    requires VersionOk(levels) && l < |levels| && r != NotFound && Answers(EntriesIn(levels[l]), u, s, r)
    ensures Answers(EntriesFrom(levels, l), u, s, r)
  {
    LevelsSplit(levels, l);
    LevelIsNewer(levels, l);
    FirstHitAnswers(EntriesIn(levels[l]), EntriesFrom(levels, l + 1), u, s, r);
  }

  /** What answers for the levels from `l` on answers for the whole version. */
  ghost predicate Suffices(levels: seq<seq<Table>>, l: nat, u: UserKey, s: nat) {
    forall q :: Answers(EntriesFrom(levels, l), u, s, q) ==> Answers(EntriesFrom(levels, 0), u, s, q)
  }

  lemma LevelMiss(levels: seq<seq<Table>>, l: nat, u: UserKey, s: nat)
    requires l < |levels| && Suffices(levels, l, u, s) && Answers(EntriesIn(levels[l]), u, s, NotFound)
    ensures Suffices(levels, l + 1, u, s)
  {
    LevelsSplit(levels, l);
    forall q | Answers(EntriesFrom(levels, l + 1), u, s, q)
      ensures Answers(EntriesFrom(levels, 0), u, s, q)
    {
      MissPassesOn(EntriesIn(levels[l]), EntriesFrom(levels, l + 1), u, s, q);
    }
  }

  /** One level: every overlapping file of level 0, one file of a deeper level. */
  method LevelGet(levels: seq<seq<Table>>, level: nat, u: UserKey, s: nat) returns (r: Saver)
    requires VersionOk(levels) && level < NUM_LEVELS
    ensures Answers(EntriesIn(levels[level]), u, s, r)
  {
    var files := levels[level];
    assert TablesOk(levels[level]);
    if level == 0 {
      r := Level0Get(files, u, s);
    } else {
      assert LevelSorted(levels[level]);
      FirstKeysOk(files);
      var index := FindFile(files, SeekKey(u, s));
      r := NotFound;
      if index < |files| && files[index].smallest.user <= u {
        r := RunGet(files[index].contents, u, s);
      }
      OneFilePerLevel(files, index, u, s, r);
    }
  }

  /** Level by level, stopping at the first hit. */
  method VersionGet(levels: seq<seq<Table>>, u: UserKey, s: nat) returns (r: Saver)
    requires VersionOk(levels)
    ensures Answers(EntriesFrom(levels, 0), u, s, r)
  {
    for level := 0 to NUM_LEVELS
      invariant Suffices(levels, level, u, s)
    {
      r := LevelGet(levels, level, u, s);
      if r != NotFound {
        LevelHit(levels, level, u, s, r);
        return;
      }
      LevelMiss(levels, level, u, s);
    }
    r := NotFound;
  }

  lemma FirstKeysOk(files: seq<Table>)
    requires TablesOk(files)
    ensures RangesOk(files)
  {
    forall f | f in files
      ensures RangeOk(f)
    {
      assert TableOk(f);
    }
  }
}
