/**
 * The iterator over the whole database, put together as DBImpl::NewIterator does (db/db_impl.cc, db/version_set.cc): a
 * database iterator over a merging iterator over the memtables, the tables of level 0, and a two-level iterator for
 * every deeper level.
 */
module DatabaseIterators {
  import opened Wrappers
  import opened Sequences
  import opened InternalKeys
  import opened Coding
  import opened Files
  import opened Compactions
  import opened Lookup
  import opened CompactionReads
  import opened Iterators
  import opened InternalIterators
  import opened Merging
  import opened DatabaseIterator
  import opened DatabaseScan
  import opened Database
  import TwoLevel

  /** File numbers and sizes are words. */
  ghost predicate FilesInWords(files: seq<Table>) {
    forall f :: f in files ==> f.number < TWO_64 && f.size < TWO_64
  }

  // The files of a level

  const HANDLE_LENGTH := 16

  /** What the index over the files of a level holds for a file. */
  function FileHandle(f: Table): Bytes
    requires f.number < TWO_64 && f.size < TWO_64
  {
    Fixed64(f.number) + Fixed64(f.size)
  }

  /** The entries of the table with a number, none if there is no such table. */
  function TableEntries(files: seq<Table>, number: nat): seq<Entry> {
    if files == [] then []
    else if files[0].number == number then files[0].contents
    else TableEntries(files[1..], number)
  }

  /** GetFileIterator; a handle of another length gives the empty iterator. */
  function FileEntries(files: seq<Table>, handle: Bytes): seq<Entry> {
    if |handle| != HANDLE_LENGTH then [] else TableEntries(files, DecodeFixed(handle[..8]))
  }

  function BlockFunction(files: seq<Table>): Bytes -> seq<Entry> {
    handle => FileEntries(files, handle)
  }

  lemma {:induction false} TableIsFound(files: seq<Table>, f: Table)
    requires f in files && DistinctNumbers(files)
    ensures TableEntries(files, f.number) == f.contents
  {
    if files[0].number != f.number {
      assert f in files[1..];
      TableIsFound(files[1..], f);
    } else {
      assert files[0] == f;
    }
  }

  lemma HandleLeadsToFile(files: seq<Table>, f: Table)
    requires f in files && DistinctNumbers(files) && f.number < TWO_64 && f.size < TWO_64
    ensures FileEntries(files, FileHandle(f)) == f.contents
  {
    FixedInverts(0, f.number);
    assert FileHandle(f)[..8] == Fixed64(f.number);
    TableIsFound(files, f);
  }

  /** LevelFileNumIterator, as the run it goes through. */
  function LevelIndex(files: seq<Table>): seq<Entry>
    requires FilesInWords(files)
  {
    seq(|files|, i requires 0 <= i < |files| => assert files[i] in files; Entry(files[i].largest, FileHandle(files[i])))
  }

  lemma IndexIsOfLevel(files: seq<Table>)
    requires FilesInWords(files) && DistinctNumbers(files)
    ensures TwoLevel.IndexesLevel(LevelIndex(files), BlockFunction(files), files)
  {
    forall i | 0 <= i < |files|
      ensures FileEntries(files, LevelIndex(files)[i].value) == files[i].contents
    {
      HandleLeadsToFile(files, files[i]);
    }
  }

  /** The run of a level, and what a two-level iterator over it needs. */
  lemma LevelIterates(files: seq<Table>)
    requires TablesOk(files) && LevelSorted(files) && DistinctNumbers(files) && FilesInWords(files)
    ensures var index, block := LevelIndex(files), BlockFunction(files);
            && Iterators.Increasing(index) && TwoLevel.Separates(index, block)
            && TwoLevel.Joined(index, block, |index|) == Flatten(Runs(files))
            && Iterators.Increasing(Flatten(Runs(files)))
  {
    var index, block := LevelIndex(files), BlockFunction(files);
    IndexIsOfLevel(files);
    TwoLevel.LevelSeparates(index, block, files);
    assert files[..|files|] == files;
    LevelRunIsJoined(index, block, files, |files|);
    LevelRun(files, |files|);
    SortedIsIncreasing(Flatten(Runs(files)));
  }

  // The iterators that are merged

  /** The children made so far. */
  ghost predicate Made(list: seq<InternalIterator>, runs: seq<seq<Entry>>)
    reads Footprint(list)
  {
    Separate(list) && RunsOf(list) == runs && forall i :: 0 <= i < |list| ==> list[i].Ok()
  }

  lemma NoneMade()
    ensures Made([], []) && Footprint([]) == {}
  {
  }

  lemma OneMade(child: InternalIterator)
    requires child.Ok()
    ensures Made([child], [child.run]) && Footprint([child]) == child.Repr()
  {
    hide InternalIterator.Ok, InternalIterator.Repr;
    InFootprint([child], 0);
  }

  lemma FootprintIsAllocated(list: seq<InternalIterator>)
    ensures forall o :: o in Footprint(list) ==> allocated(o)
  {
  }

  lemma FootprintJoins(a: seq<InternalIterator>, b: seq<InternalIterator>)
    ensures Footprint(a + b) == Footprint(a) + Footprint(b)
  {
    hide InternalIterator.Repr;
    forall o | o in Footprint(a + b)
      ensures o in Footprint(a) + Footprint(b)
    {
      var i :| 0 <= i < |a + b| && o in (a + b)[i].Repr();
      if i < |a| { InFootprint(a, i); } else { InFootprint(b, i - |a|); }
    }
    forall o | o in Footprint(a)
      ensures o in Footprint(a + b)
    {
      var i :| 0 <= i < |a| && o in a[i].Repr();
      InFootprint(a + b, i);
      assert (a + b)[i] == a[i];
    }
    forall o | o in Footprint(b)
      ensures o in Footprint(a + b)
    {
      var i :| 0 <= i < |b| && o in b[i].Repr();
      InFootprint(a + b, |a| + i);
      assert (a + b)[|a| + i] == b[i];
    }
  }

  lemma SeparateJoins(a: seq<InternalIterator>, b: seq<InternalIterator>)
    requires Separate(a) && Separate(b) && Footprint(a) !! Footprint(b)
    ensures Separate(a + b)
  {
    hide InternalIterator.Repr, Footprint;
    forall i, j | 0 <= i < j < |a + b|
      ensures (a + b)[i].Repr() !! (a + b)[j].Repr()
    {
      if i < |a| { InFootprint(a, i); }
      if j >= |a| { InFootprint(b, j - |a|); }
    }
  }

  lemma MadeJoin(a: seq<InternalIterator>, runs: seq<seq<Entry>>, b: seq<InternalIterator>, more: seq<seq<Entry>>)
    requires Made(a, runs) && Made(b, more) && Footprint(a) !! Footprint(b)
    ensures Made(a + b, runs + more) && Footprint(a + b) == Footprint(a) + Footprint(b)
  {
    hide InternalIterator.Ok, InternalIterator.Repr;
    FootprintJoins(a, b);
    SeparateJoins(a, b);
    hide Footprint, Separate;
    assert RunsOf(a + b) == runs + more;
  }

  method NewRunIterator(run: seq<Entry>) returns (child: InternalIterator)
    requires Iterators.Increasing(run)
    ensures child.Ok() && child.run == run && fresh(child.Repr())
  {
    var single := new RunIterator(run);
    child := new InternalIterator.OverRun(single);
  }

  method NewConcatenatingIterator(files: seq<Table>) returns (child: InternalIterator)
    requires TablesOk(files) && LevelSorted(files) && DistinctNumbers(files) && FilesInWords(files)
    ensures child.Ok() && child.run == Flatten(Runs(files)) && fresh(child.Repr())
  {
    LevelIterates(files);
    hide Iterators.Increasing, TwoLevel.Separates, TwoLevel.Joined;
    var index := new RunIterator(LevelIndex(files));
    var level := new TwoLevel.TwoLevelIterator(index, BlockFunction(files));
    child := new InternalIterator.OverLevel(level);
  }

  lemma LevelZeroRunsExtend(files: seq<Table>, n: nat)
    requires n < |files|
    ensures LevelZeroRuns(files[..n + 1]) == LevelZeroRuns(files[..n]) + [files[n].contents]
  {
    assert files[..n + 1][..n] == files[..n];
  }

  lemma TableIncreases(files: seq<Table>, i: nat)
    requires TablesOk(files) && i < |files|
    ensures Iterators.Increasing(files[i].contents)
  {
    assert files[i] in files;
    SortedIsIncreasing(files[i].contents);
  }

  /** The tables of level 0, each on its own. */
  method NewLevelZeroIterators(files: seq<Table>) returns (list: seq<InternalIterator>)
    requires TablesOk(files)
    ensures Made(list, LevelZeroRuns(files)) && fresh(Footprint(list))
  {
    NoneMade();
    hide Made, Footprint, InternalIterator.Ok, InternalIterator.Repr, TablesOk, Iterators.Increasing;
    list := [];
    for i := 0 to |files|
      invariant Made(list, LevelZeroRuns(files[..i])) && fresh(Footprint(list))
    {
      TableIncreases(files, i);
      LevelZeroRunsExtend(files, i);
      list := Appended(list, LevelZeroRuns(files[..i]), files[i].contents);
    }
    assert files[..|files|] == files;
  }

  method Appended(list: seq<InternalIterator>, ghost runs: seq<seq<Entry>>, run: seq<Entry>)
    returns (all: seq<InternalIterator>)
    requires Made(list, runs) && Iterators.Increasing(run)
    ensures Made(all, runs + [run]) && forall o :: o in Footprint(all) ==> o in Footprint(list) || fresh(o)
  {
    FootprintIsAllocated(list);
    hide Made, Footprint, InternalIterator.Ok, InternalIterator.Repr, Iterators.Increasing;
    var child := NewRunIterator(run);
    OneMade(child);
    MadeJoin(list, runs, [child], [run]);
    all := list + [child];
  }

  method AppendedLevel(list: seq<InternalIterator>, ghost runs: seq<seq<Entry>>, files: seq<Table>)
    returns (all: seq<InternalIterator>)
    requires Made(list, runs) && TablesOk(files) && LevelSorted(files) && DistinctNumbers(files) && FilesInWords(files)
    ensures Made(all, runs + [Flatten(Runs(files))]) && forall o :: o in Footprint(all) ==> o in Footprint(list) || fresh(o)
  {
    FootprintIsAllocated(list);
    hide Made, Footprint, InternalIterator.Ok, InternalIterator.Repr, TablesOk, LevelSorted, FilesInWords;
    var child := NewConcatenatingIterator(files);
    OneMade(child);
    MadeJoin(list, runs, [child], [child.run]);
    all := list + [child];
  }

  ghost predicate InWords(db: Db) {
    forall l :: 0 <= l < |db.levels| ==> FilesInWords(db.levels[l])
  }

  lemma LevelFacts(db: Db, l: nat)
    requires db.Inv() && InWords(db) && l < NUM_LEVELS
    ensures |db.levels| == NUM_LEVELS && TablesOk(db.levels[l]) && DistinctNumbers(db.levels[l])
    ensures FilesInWords(db.levels[l]) && (l > 0 ==> LevelSorted(db.levels[l]))
  {
  }

  lemma DeeperRunsStep(levels: seq<seq<Table>>, l: nat, done: seq<seq<Entry>>)
    requires l < |levels|
    ensures done + DeeperRuns(levels, l)
            == (if levels[l] == [] then done else done + [Flatten(Runs(levels[l]))]) + DeeperRuns(levels, l + 1)
  {
    hide Flatten, Runs;
    var rest := DeeperRuns(levels, l + 1);
    if levels[l] != [] { assert done + ([Flatten(Runs(levels[l]))] + rest) == done + [Flatten(Runs(levels[l]))] + rest; }
  }

  /** One iterator for every deeper level that has files. */
  method NewLevelIterators(db: Db) returns (list: seq<InternalIterator>)
    requires db.Inv() && InWords(db)
    ensures |db.levels| == NUM_LEVELS && Made(list, DeeperRuns(db.levels, 1)) && fresh(Footprint(list))
  {
    LevelFacts(db, 0);
    NoneMade();
    AllDeeper(db.levels);
    hide Made, Footprint, InternalIterator.Ok, InternalIterator.Repr, Db.Inv, InWords, TablesOk, LevelSorted;
    hide FilesInWords;
    hide DeeperRuns, Flatten, Runs, DistinctNumbers;
    list := [];
    ghost var done := [];
    for l := 1 to NUM_LEVELS
      invariant Made(list, done) && fresh(Footprint(list))
      invariant done + DeeperRuns(db.levels, l) == DeeperRuns(db.levels, 1)
    {
      DeeperRunsStep(db.levels, l, done);
      if db.levels[l] != [] {
        LevelFacts(db, l);
        list := AppendedLevel(list, done, db.levels[l]);
        done := done + [Flatten(Runs(db.levels[l]))];
      }
    }
    assert done + [] == done;
  }

  lemma AllDeeper(levels: seq<seq<Table>>)
    ensures [] + DeeperRuns(levels, |levels|) == []
    ensures |levels| > 0 ==> [] + DeeperRuns(levels, 1) == DeeperRuns(levels, 1)
  {
  }

  /** Version::AddIterators. */
  method NewTableIterators(db: Db) returns (list: seq<InternalIterator>)
    requires db.Inv() && InWords(db)
    ensures |db.levels| == NUM_LEVELS && Made(list, LevelZeroRuns(db.levels[0]) + DeeperRuns(db.levels, 1))
    ensures fresh(Footprint(list))
  {
    LevelFacts(db, 0);
    hide Made, Footprint, InternalIterator.Ok, InternalIterator.Repr, Db.Inv, InWords, TablesOk, LevelZeroRuns;
    hide DeeperRuns;
    var zero := NewLevelZeroIterators(db.levels[0]);
    FootprintIsAllocated(zero);
    var deeper := NewLevelIterators(db);
    MadeJoin(zero, LevelZeroRuns(db.levels[0]), deeper, DeeperRuns(db.levels, 1));
    list := zero + deeper;
  }

  method NewMemTableIterators(db: Db) returns (list: seq<InternalIterator>)
    requires Iterators.Increasing(db.mem) && (db.imm.Some? ==> Iterators.Increasing(db.imm.value))
    ensures Made(list, [db.mem] + ImmRuns(db)) && fresh(Footprint(list))
  {
    NoneMade();
    hide Made, Footprint, InternalIterator.Ok, InternalIterator.Repr, Iterators.Increasing;
    list := Appended([], [], db.mem);
    assert [] + [db.mem] == [db.mem];
    if db.imm.Some? {
      list := Appended(list, [db.mem], db.imm.value);
    } else {
      assert [db.mem] + [] == [db.mem];
    }
  }

  /** The iterators over the sources of the database, in the order of NewInternalIterator. */
  method NewChildren(db: Db) returns (list: seq<InternalIterator>)
    requires db.Inv() && InWords(db)
    ensures |db.levels| == NUM_LEVELS && Made(list, Sources(db)) && fresh(Footprint(list))
  {
    LevelFacts(db, 0);
    MemTablesIncrease(db);
    hide Made, Footprint, InternalIterator.Ok, InternalIterator.Repr, Db.Inv, InWords, TablesOk, LevelZeroRuns;
    hide DeeperRuns, Iterators.Increasing, ImmRuns, Sources;
    var mem := NewMemTableIterators(db);
    FootprintIsAllocated(mem);
    var tables := NewTableIterators(db);
    ghost var runs := LevelZeroRuns(db.levels[0]) + DeeperRuns(db.levels, 1);
    MadeJoin(mem, [db.mem] + ImmRuns(db), tables, runs);
    list := mem + tables;
    SourcesAre(db);
  }

  lemma SourcesAre(db: Db)
    requires |db.levels| == NUM_LEVELS
    ensures Sources(db) == [db.mem] + ImmRuns(db) + (LevelZeroRuns(db.levels[0]) + DeeperRuns(db.levels, 1))
  {
  }

  /** NewInternalIterator: over everything the database holds. */
  method NewInternalIterator(db: Db) returns (it: MergingIterator)
    requires db.Inv() && InWords(db)
    ensures it.Inv() && fresh(it.Repr()) && |db.levels| == NUM_LEVELS && IsMerge(Sources(db), it.run)
  {
    ghost var merged := SourcesMerge(db);
    hide Db.Inv, InWords, Made, Footprint, MergingIterator.Inv, IsMerge, Sources, InternalIterator.Repr;
    hide MergingIterator.Repr;
    var list := NewChildren(db);
    it := NewMergingIterator(list, Sources(db), merged);
  }

  method NewMergingIterator(list: seq<InternalIterator>, ghost runs: seq<seq<Entry>>, ghost merged: seq<Entry>)
    returns (it: MergingIterator)
    requires Made(list, runs) && IsMerge(runs, merged)
    ensures it.Inv() && fresh(it) && it.Repr() == {it} + Footprint(list) && it.run == merged
  {
    it := new MergingIterator(list, merged);
  }

  lemma MemTablesIncrease(db: Db)
    requires db.Inv()
    ensures Iterators.Increasing(db.mem) && (db.imm.Some? ==> Iterators.Increasing(db.imm.value))
  {
    SortedIsIncreasing(db.mem);
    if db.imm.Some? { SortedIsIncreasing(db.imm.value); }
  }

  /** The pairs shown are those read at the snapshot. */
  ghost predicate ShowsReads(all: set<Entry>, s: nat, live: seq<Entry>) {
    forall u, v :: ReadsAs(all, u, s, Some(v)) <==>
      exists k :: 0 <= k < |live| && live[k].key.user == u && live[k].value == v
  }

  lemma MergedShowsReads(db: Db, merged: seq<Entry>, s: nat)
    requires db.Inv() && IsMerge(Sources(db), merged)
    ensures Sorted(merged) && ShowsReads(db.Contents(), s, Live(merged, s))
  {
    SourcePieces(db);
    MergeIsSorted(Sources(db), db.Contents(), merged);
    hide Db.Inv, Db.Contents, IsMerge, Live, ReadsAs, Pieces, Sorted;
    forall u, v
      ensures ReadsAs(db.Contents(), u, s, Some(v)) <==>
              exists k :: 0 <= k < |Live(merged, s)| && Live(merged, s)[k].key.user == u && Live(merged, s)[k].value == v
    {
      ScanShowsReads(db, merged, s, u, v);
    }
  }

  /**
   * DBImpl::NewIterator at a snapshot.  The cursor it gives is over exactly what reads at the snapshot get, so any
   * sequence of moves (Drive) shows those and nothing else.
   */
  method NewIterator(db: Db, s: nat) returns (it: DBIter)
    requires db.Inv() && InWords(db)
    ensures it.Inv() && !it.valid && it.sequence == s && fresh(it) && fresh(it.iter.Repr())
    ensures Sorted(it.iter.run) && ShowsReads(db.Contents(), s, it.LiveRun())
  {
    hide Db.Inv, Db.Contents, ShowsReads, Live, MergingIterator.Inv, MergingIterator.Repr, InWords, IsMerge;
    hide Sources, Sorted;
    var internal := NewInternalIterator(db);
    MergedShowsReads(db, internal.run, s);
    it := new DBIter(internal, s);
  }

  // A whole scan

  datatype Pair = Pair(user: UserKey, value: Bytes)

  ghost function Pairs(live: seq<Entry>): (r: seq<Pair>)
    ensures |r| == |live|
  {
    seq(|live|, k requires 0 <= k < |live| => Pair(live[k].key.user, live[k].value))
  }

  lemma PairsShowReads(run: seq<Entry>, s: nat, all: set<Entry>)
    requires Sorted(run) && ShowsReads(all, s, Live(run, s))
    ensures var shown := Pairs(Live(run, s));
            && (forall u, v :: Pair(u, v) in shown <==> ReadsAs(all, u, s, Some(v)))
            && forall i, j :: 0 <= i < j < |shown| ==> shown[i].user < shown[j].user
  {
    var live, shown := Live(run, s), Pairs(Live(run, s));
    forall u, v
      ensures Pair(u, v) in shown <==> ReadsAs(all, u, s, Some(v))
    {
      if Pair(u, v) in shown { var k :| 0 <= k < |shown| && shown[k] == Pair(u, v); }
      if ReadsAs(all, u, s, Some(v)) {
        var k :| 0 <= k < |live| && live[k].key.user == u && live[k].value == v;
        assert shown[k] == Pair(u, v);
      }
    }
    forall i, j | 0 <= i < j < |shown|
      ensures shown[i].user < shown[j].user
    {
      LiveIncreases(run, s, i, j);
    }
  }

  /** A scan of a database from its first key on shows exactly what reads at the snapshot get, in the order of the keys. */
  method Scan(db: Db, s: nat) returns (shown: seq<Pair>)
    requires db.Inv() && InWords(db)
    ensures forall u, v :: Pair(u, v) in shown <==> ReadsAs(db.Contents(), u, s, Some(v))
    ensures forall i, j :: 0 <= i < j < |shown| ==> shown[i].user < shown[j].user
  {
    var it := NewIterator(db, s);
    ghost var run := it.iter.run;
    PairsShowReads(run, s, db.Contents());
    shown := Walk(it);
  }

  /** From the first pair to the last. */
  method Walk(it: DBIter) returns (shown: seq<Pair>)
    requires it.Inv()
    modifies it, it.iter.Repr()
    ensures it.Inv() && shown == Pairs(it.LiveRun())
  {
    hide DBIter.Inv, DBIter.IterOk, DBIter.Pos, DBIter.LiveRun, MergingIterator.Repr, MergingIterator.Inv, Pairs;
    ghost var pairs := Pairs(it.LiveRun());
    InvIsOk(it);
    it.SeekToFirst();
    shown := [];
    InvIsOk(it);
    it.PosIsCurrent();
    it.PosInRange();
    while it.valid
      invariant it.Inv() && it.cur <= |it.iter.run| && it.Pos() <= |pairs| && shown == pairs[..it.Pos()] && (it.valid <==> it.Pos() < |pairs|)
      decreases |pairs| - it.Pos()
    {
      PairIsCurrent(it);
      shown := shown + [Pair(it.Key(), it.Value())];
      it.Next();
      InvIsOk(it);
      it.PosIsCurrent();
    }
    assert pairs[..|pairs|] == pairs;
  }

  lemma PairIsCurrent(it: DBIter)
    requires it.Inv() && it.valid
    ensures it.Pos() < |it.LiveRun()| && Pairs(it.LiveRun())[it.Pos()] == Pair(it.Key(), it.Value())
  {
    it.PosIsCurrent();
  }

  lemma InvIsOk(it: DBIter)
    requires it.Inv()
    ensures it.IterOk() && it.cur <= |it.iter.run|
  {
  }
}
