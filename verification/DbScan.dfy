/**
 * Scans over the whole database: the runs that DBImpl::NewInternalIterator merges (db/db_impl.cc, and
 * Version::AddIterators in db/version_set.cc), and what an iterator over their union shows.
 */
module DatabaseScan {
  import opened Wrappers
  import opened Sequences
  import opened InternalKeys
  import opened Files
  import opened Compactions
  import opened Lookup
  import opened Rewrites
  import opened CompactionReads
  import opened Merging
  import opened DatabaseIterator
  import opened Database
  import opened DatabaseInvariant
  import V = Versions
  import TwoLevel

  /** A file each for level 0. */
  function LevelZeroRuns(files: seq<Table>): seq<seq<Entry>> {
    if files == [] then [] else LevelZeroRuns(files[..|files| - 1]) + [files[|files| - 1].contents]
  }

  /** One run for every deeper level that has files. */
  function DeeperRuns(levels: seq<seq<Table>>, from: nat): seq<seq<Entry>>
    requires from <= |levels|
    decreases |levels| - from
  {
    if from == |levels| then []
    else if levels[from] == [] then DeeperRuns(levels, from + 1)
    else [Flatten(Runs(levels[from]))] + DeeperRuns(levels, from + 1)
  }

  function ImmRuns(db: Db): seq<seq<Entry>> {
    if db.imm.Some? then [db.imm.value] else []
  }

  function Sources(db: Db): seq<seq<Entry>>
    requires |db.levels| == NUM_LEVELS
  {
    [db.mem] + (ImmRuns(db) + (LevelZeroRuns(db.levels[0]) + DeeperRuns(db.levels, 1)))
  }

  ghost predicate Apart(a: seq<Entry>, b: seq<Entry>) {
    forall x, y :: x in a && y in b && x.key.user == y.key.user ==> x.key.seqno != y.key.seqno
  }

  /** The runs are sorted, share no user key and sequence number, and hold the entries of `all`. */
  ghost predicate Pieces(runs: seq<seq<Entry>>, all: set<Entry>) {
    && (forall i :: 0 <= i < |runs| ==> Sorted(runs[i]))
    && (forall i, j {:trigger runs[i], runs[j]} :: 0 <= i < j < |runs| ==> Apart(runs[i], runs[j]))
    && (forall e :: e in all <==> exists i :: 0 <= i < |runs| && e in runs[i])
  }

  lemma NoPieces()
    ensures Pieces([], {})
  {
  }

  lemma OnePiece(run: seq<Entry>)
    requires Sorted(run)
    ensures Pieces([run], EntrySet(run))
  {
    assert [run][0] == run;
  }

  lemma PiecesJoin(a: seq<seq<Entry>>, left: set<Entry>, b: seq<seq<Entry>>, right: set<Entry>)
    requires Pieces(a, left) && Pieces(b, right)
    requires forall x, y :: x in left && y in right && x.key.user == y.key.user ==> x.key.seqno != y.key.seqno
    ensures Pieces(a + b, left + right)
  {
    forall e
      ensures e in left + right <==> exists i :: 0 <= i < |a + b| && e in (a + b)[i]
    {
      if i :| 0 <= i < |a| && e in a[i] { assert e in (a + b)[i]; }
      if i :| 0 <= i < |b| && e in b[i] { assert e in (a + b)[|a| + i]; }
    }
    forall i, j | 0 <= i < j < |a + b|
      ensures Apart((a + b)[i], (a + b)[j])
    {
      if j < |a| {
        assert Apart(a[i], a[j]);
      } else if i < |a| {
        assert forall x :: x in a[i] ==> x in left;
        assert forall y :: y in b[j - |a|] ==> y in right;
      } else {
        assert Apart(b[i - |a|], b[j - |a|]);
      }
    }
  }

  lemma FilesDiffer(files: seq<Table>, n: nat, f: Table)
    requires V.StrictlyOrdered(files) && DistinctNumbers(files) && n < |files| && f in files[..n]
    ensures f.number != files[n].number
  {
    var i :| 0 <= i < n && files[i] == f;
    assert files[n] in files && V.BySmallestKey(files[i], files[n]);
  }

  lemma {:induction false} LevelZeroPieces(files: seq<Table>, n: nat)
    requires TablesOk(files) && NumberedByAge(files) && DistinctNumbers(files) && V.StrictlyOrdered(files)
    requires n <= |files|
    ensures Pieces(LevelZeroRuns(files[..n]), EntriesIn(files[..n]))
  {
    if n > 0 {
      var front, f := files[..n - 1], files[n - 1];
      assert files[..n][..n - 1] == front && f in files;
      LevelZeroPieces(files, n - 1);
      OnePiece(f.contents);
      forall x, y | x in EntriesIn(front) && y in EntrySet(f.contents) && x.key.user == y.key.user
        ensures x.key.seqno != y.key.seqno
      {
        var g :| g in front && x in g.contents;
        FilesDiffer(files, n - 1, g);
        assert Newer(f.contents, g.contents) || Newer(g.contents, f.contents);
      }
      PiecesJoin(LevelZeroRuns(front), EntriesIn(front), [f.contents], EntrySet(f.contents));
      EntriesInExtends(files, n - 1);
    } else {
      NoPieces();
    }
  }

  /** The files of a sorted level, joined. */
  lemma {:induction false} LevelRun(level: seq<Table>, n: nat)
    requires TablesOk(level) && LevelSorted(level) && n <= |level|
    ensures Sorted(Flatten(Runs(level[..n])))
    ensures EntrySet(Flatten(Runs(level[..n]))) == EntriesIn(level[..n])
  {
    if n > 0 {
      var front, f := level[..n - 1], level[n - 1];
      assert f in level && level[..n] == front + [f] && Runs(level[..n]) == Runs(front) + [f.contents];
      LevelRun(level, n - 1);
      FlattenExtends(Runs(front), f.contents);
      forall x, y | x in Flatten(Runs(front)) && y in f.contents
        ensures Precedes(x.key, y.key)
      {
        assert x in EntrySet(Flatten(Runs(front)));
        var g :| g in front && x in g.contents;
        var i :| 0 <= i < n - 1 && level[i] == g;
        TwoLevel.FilesApart(level, i, n - 1, y);
        TwoLevel.EntryInRange(g, x);
      }
      TwoLevel.SortedJoins(Flatten(Runs(front)), f.contents);
      EntriesInExtends(level, n - 1);
      JoinedSet(Flatten(Runs(front)), f.contents);
    }
  }

  lemma JoinedSet(a: seq<Entry>, b: seq<Entry>)
    ensures EntrySet(a + b) == EntrySet(a) + EntrySet(b)
  {
    assert forall e :: e in a + b <==> e in a || e in b;
  }

  /** The two-level iterator over a level walks this run. */
  lemma {:induction false} LevelRunIsJoined(index: seq<Entry>, block: Bytes -> seq<Entry>, level: seq<Table>, n: nat)
    requires TwoLevel.IndexesLevel(index, block, level) && n <= |level|
    ensures TwoLevel.Joined(index, block, n) == Flatten(Runs(level[..n]))
  {
    if n > 0 {
      LevelRunIsJoined(index, block, level, n - 1);
      assert Runs(level[..n]) == Runs(level[..n - 1]) + [level[n - 1].contents];
      FlattenExtends(Runs(level[..n - 1]), level[n - 1].contents);
    }
  }

  lemma {:induction false} DeeperPieces(levels: seq<seq<Table>>, from: nat)
    requires VersionOk(levels) && 1 <= from <= |levels|
    ensures Pieces(DeeperRuns(levels, from), EntriesFrom(levels, from))
    decreases |levels| - from
  {
    if from == |levels| {
      assert EntriesFrom(levels, from) == {};
      NoPieces();
    } else {
      DeeperPieces(levels, from + 1);
      LevelsSplit(levels, from);
      var level := levels[from];
      if level == [] {
        assert EntriesIn(level) == {};
        assert EntriesFrom(levels, from) == EntriesFrom(levels, from + 1);
      } else {
        assert TablesOk(level) && LevelSorted(level) && level[..|level|] == level;
        LevelRun(level, |level|);
        OnePiece(Flatten(Runs(level)));
        LevelIsNewer(levels, from);
        PiecesJoin([Flatten(Runs(level))], EntriesIn(level), DeeperRuns(levels, from + 1), EntriesFrom(levels, from + 1));
      }
    }
  }

  lemma TablePieces(levels: seq<seq<Table>>)
    requires VersionOk(levels) && LevelsOrdered(levels)
    ensures Pieces(LevelZeroRuns(levels[0]) + DeeperRuns(levels, 1), EntriesFrom(levels, 0))
  {
    var files := levels[0];
    assert TablesOk(files) && V.StrictlyOrdered(files) && files[..|files|] == files;
    LevelZeroPieces(files, |files|);
    DeeperPieces(levels, 1);
    LevelIsNewer(levels, 0);
    LevelsSplit(levels, 0);
    PiecesJoin(LevelZeroRuns(files), EntriesIn(files), DeeperRuns(levels, 1), EntriesFrom(levels, 1));
  }

  lemma SourcePieces(db: Db)
    requires db.Inv()
    ensures Pieces(Sources(db), db.Contents())
  {
    var tables := LevelZeroRuns(db.levels[0]) + DeeperRuns(db.levels, 1);
    TablePieces(db.levels);
    if db.imm.Some? { OnePiece(db.imm.value); } else { NoPieces(); }
    PiecesJoin(ImmRuns(db), EntrySet(db.Imm()), tables, EntriesFrom(db.levels, 0));
    OnePiece(db.mem);
    PiecesJoin([db.mem], EntrySet(db.mem), ImmRuns(db) + tables, EntrySet(db.Imm()) + EntriesFrom(db.levels, 0));
    assert db.Contents() == EntrySet(db.mem) + (EntrySet(db.Imm()) + EntriesFrom(db.levels, 0));
  }

  /** In the union of such runs, newer entries of a user key come first. */
  lemma MergeIsSorted(runs: seq<seq<Entry>>, all: set<Entry>, merged: seq<Entry>)
    requires Pieces(runs, all) && IsMerge(runs, merged)
    ensures Sorted(merged) && EntrySet(merged) == all
  {
    forall i, j | 0 <= i < j < |merged|
      ensures Precedes(merged[i].key, merged[j].key)
    {
      var a, k := Source(runs, merged, i);
      var b, l := Source(runs, merged, j);
      assert Before(merged[i].key, merged[j].key);
      if a != b {
        assert Apart(runs[if a < b then a else b], runs[if a < b then b else a]);
      } else {
        assert k != l;
      }
    }
    forall e
      ensures e in merged <==> e in all
    {
      if e in all {
        var i :| 0 <= i < |runs| && e in runs[i];
        var k :| 0 <= k < |runs[i]| && runs[i][k] == e;
      }
    }
  }

  lemma PiecesMerge(runs: seq<seq<Entry>>, all: set<Entry>, merged: seq<Entry>)
    requires Pieces(runs, all) && Sorted(merged) && EntrySet(merged) == all
    ensures IsMerge(runs, merged)
  {
    assert forall e :: e in merged <==> e in EntrySet(merged);
    forall i, j, k, l | 0 <= i < j < |runs| && 0 <= k < |runs[i]| && 0 <= l < |runs[j]|
      ensures runs[i][k].key != runs[j][l].key
    {
      assert Apart(runs[i], runs[j]) && runs[i][k] in runs[i] && runs[j][l] in runs[j];
    }
    forall i, k | 0 <= i < |runs| && 0 <= k < |runs[i]|
      ensures runs[i][k] in merged
    {
      assert runs[i][k] in runs[i];
    }
  }

  lemma {:induction false} CanBeSorted(all: set<Entry>) returns (run: seq<Entry>)
    requires forall x, y :: x in all && y in all && x != y && x.key.user == y.key.user ==> x.key.seqno != y.key.seqno
    ensures Sorted(run) && EntrySet(run) == all
  {
    if all == {} {
      run := [];
    } else {
      var e :| e in all;
      var rest := CanBeSorted(all - {e});
      assert forall x :: x in rest <==> x in EntrySet(rest);
      AddEntrySorted(rest, e);
      AddEntryContents(rest, e);
      run := AddEntry(rest, e);
    }
  }

  lemma PiecesUnique(runs: seq<seq<Entry>>, all: set<Entry>)
    requires Pieces(runs, all)
    ensures forall x, y :: x in all && y in all && x != y && x.key.user == y.key.user ==> x.key.seqno != y.key.seqno
  {
    forall x, y | x in all && y in all && x != y && x.key.user == y.key.user
      ensures x.key.seqno != y.key.seqno
    {
      var i :| 0 <= i < |runs| && x in runs[i];
      var j :| 0 <= j < |runs| && y in runs[j];
      if i == j {
        var k :| 0 <= k < |runs[i]| && runs[i][k] == x;
        var l :| 0 <= l < |runs[i]| && runs[i][l] == y;
      } else {
        assert Apart(runs[if i < j then i else j], runs[if i < j then j else i]);
      }
    }
  }

  /** In every reachable state the sources can be merged: no two hold the same internal key. */
  lemma SourcesMerge(db: Db) returns (merged: seq<Entry>)
    requires db.Inv()
    ensures IsMerge(Sources(db), merged)
  {
    SourcePieces(db);
    PiecesUnique(Sources(db), db.Contents());
    merged := CanBeSorted(db.Contents());
    PiecesMerge(Sources(db), db.Contents(), merged);
  }

  /**
   * The iterator over the database at a snapshot shows exactly what reads at the snapshot get, in the order of
   * the user keys.
   */
  lemma ScanShowsReads(db: Db, merged: seq<Entry>, s: nat, u: UserKey, v: Bytes)
    requires db.Inv() && IsMerge(Sources(db), merged)
    ensures ReadsAs(db.Contents(), u, s, Some(v))
            <==> exists k :: 0 <= k < |Live(merged, s)| && Live(merged, s)[k].key.user == u && Live(merged, s)[k].value == v
  {
    SourcePieces(db);
    MergeIsSorted(Sources(db), db.Contents(), merged);
    LiveIsWhatReadersGet(merged, s, u, v);
  }
}
