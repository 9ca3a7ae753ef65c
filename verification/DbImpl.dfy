/** The database object (db/db_impl.cc): each method takes one step of the state machine. */
module DatabaseImpl {
  import opened Wrappers
  import opened Sequences
  import opened InternalKeys
  import opened Files
  import opened Inputs
  import opened Compactions
  import opened Lookup
  import opened Rewrites
  import opened CompactionReads
  import opened Database
  import opened DatabaseInvariant
  import opened Scores
  import opened DatabaseEdits
  import opened DatabaseManifest
  import opened ManifestCodec
  import V = Versions

  const MAX_MEM_COMPACT_LEVEL := 2

  /** No two runs share a user key and sequence number. */
  ghost predicate NoClash(a: seq<Entry>, b: seq<Entry>) {
    forall x, y :: x in a && y in b ==> x.key.user != y.key.user || x.key.seqno != y.key.seqno
  }

  /** The merge of two sorted runs. */
  function MergeRuns(a: seq<Entry>, b: seq<Entry>): seq<Entry> {
    if a == [] then b
    else if b == [] then a
    else if Before(b[0].key, a[0].key) then [b[0]] + MergeRuns(a, b[1..])
    else [a[0]] + MergeRuns(a[1..], b)
  }

  lemma {:induction false} MergeRunsContents(a: seq<Entry>, b: seq<Entry>)
    ensures forall e :: e in MergeRuns(a, b) <==> e in a || e in b
  {
    if a != [] && b != [] {
      assert a == [a[0]] + a[1..] && b == [b[0]] + b[1..];
      if Before(b[0].key, a[0].key) {
        MergeRunsContents(a, b[1..]);
      } else {
        MergeRunsContents(a[1..], b);
      }
    }
  }

  lemma HeadFirst(e: Entry, run: seq<Entry>)
    requires Sorted(run) && forall x :: x in run ==> Precedes(e.key, x.key)
    ensures Sorted([e] + run)
  {
  }

  /** The smaller head of two sorted runs comes before everything else in them. */
  lemma SmallerHead(a: seq<Entry>, b: seq<Entry>)
    requires Sorted(a) && Sorted(b) && NoClash(a, b) && a != [] && b != [] && !Before(b[0].key, a[0].key)
    ensures forall x :: x in a[1..] || x in b ==> Precedes(a[0].key, x.key)
    ensures NoClash(a[1..], b) && Sorted(a[1..])
  {
    assert a[0] in a && b[0] in b && a == [a[0]] + a[1..];
    assert Precedes(a[0].key, b[0].key);
    forall x | x in b
      ensures Precedes(a[0].key, x.key)
    {
      var k :| 0 <= k < |b| && b[k] == x;
    }
    forall x | x in a[1..]
      ensures Precedes(a[0].key, x.key)
    {
      var k :| 0 <= k < |a[1..]| && a[1..][k] == x;
      assert a[k + 1] == x;
    }
  }

  lemma {:induction false} MergeRunsSorted(a: seq<Entry>, b: seq<Entry>)
    requires Sorted(a) && Sorted(b) && NoClash(a, b)
    ensures Sorted(MergeRuns(a, b))
  {
    if a != [] && b != [] {
      if Before(b[0].key, a[0].key) {
        SmallerHead(b, a);
        MergeRunsSorted(a, b[1..]);
        MergeRunsContents(a, b[1..]);
        HeadFirst(b[0], MergeRuns(a, b[1..]));
      } else {
        SmallerHead(a, b);
        MergeRunsSorted(a[1..], b);
        MergeRunsContents(a[1..], b);
        HeadFirst(a[0], MergeRuns(a[1..], b));
      }
    }
  }

  /** What the input iterator of a compaction goes through: all entries of the files, in order. */
  method MergeInputs(files: seq<Table>) returns (input: seq<Entry>)
    requires TablesOk(files)
    requires forall i, j :: 0 <= i < j < |files| ==> NoClash(files[i].contents, files[j].contents)
    ensures Sorted(input) && EntrySet(input) == EntriesIn(files)
  {
    input := [];
    for i := 0 to |files|
      invariant Sorted(input) && EntrySet(input) == EntriesIn(files[..i])
    {
      assert files[i] in files;
      forall x, y | x in input && y in files[i].contents
        ensures x.key.user != y.key.user || x.key.seqno != y.key.seqno
      {
        assert x in EntriesIn(files[..i]);
        var f :| f in files[..i] && x in f.contents;
        var k :| 0 <= k < i && files[..i][k] == f;
        assert NoClash(files[k].contents, files[i].contents);
      }
      MergeRunsSorted(input, files[i].contents);
      MergeRunsContents(input, files[i].contents);
      ghost var before := EntrySet(input);
      input := MergeRuns(input, files[i].contents);
      assert EntrySet(input) == before + EntrySet(files[i].contents);
      EntriesInExtends(files, i);
    }
    assert files[..|files|] == files;
  }

  lemma {:induction false} OverlappingOrdered(files: seq<Table>, begin: Bound, end: Bound)
    requires V.StrictlyOrdered(files)
    ensures V.StrictlyOrdered(Overlapping(files, begin, end))
  {
    if files != [] {
      var rest, last := files[..|files| - 1], files[|files| - 1];
      OverlappingOrdered(rest, begin, end);
      OverlappingMembers(rest, begin, end);
      var r := Overlapping(rest, begin, end);
      forall k | 0 <= k < |r|
        ensures V.BySmallestKey(r[k], last)
      {
        assert r[k] in r;
        var i :| 0 <= i < |rest| && rest[i] == r[k];
        assert files[i] == r[k];
      }
    }
  }

  lemma InputsOrdered(c: Job)
    requires IsCompaction(c)
    ensures V.StrictlyOrdered(c.inputs0) && V.StrictlyOrdered(c.inputs1)
  {
    var files, next := c.levels[c.level], c.levels[c.level + 1];
    assert V.StrictlyOrdered(c.levels[c.level]) && V.StrictlyOrdered(c.levels[c.level + 1]);
    var smallest, largest :| IsRange(c.inputs0, smallest, largest)
                             && c.inputs1 == Overlapping(next, Some(smallest.user), Some(largest.user));
    OverlappingOrdered(next, Some(smallest.user), Some(largest.user));
    if c.level == 0 {
      var lo, hi :| Closed(files, lo, hi) && c.inputs0 == Overlapping(files, lo, hi);
      OverlappingOrdered(files, lo, hi);
    } else {
      var a: nat, b: nat :| IsCleanSlice(files, c.inputs0, a, b);
    }
  }

  lemma InputsAreDistinct(c: Job, i: nat, j: nat)
    requires IsCompaction(c) && i < j < |c.Inputs()|
    ensures c.Inputs()[i] != c.Inputs()[j]
  {
    InputsOrdered(c);
    var n := |c.inputs0|;
    if i < n <= j {
      InputsAreFiles(c);
      var f, g := c.inputs0[i], c.inputs1[j - n];
      assert f in c.inputs0 && g in c.inputs1;
      if f == g { NumberFacts(c.levels, c.level, c.level + 1, f, g); }
    }
  }

  lemma InputsDoNotClash(c: Job, i: nat, j: nat)
    requires IsCompaction(c) && i < j < |c.Inputs()|
    ensures NoClash(c.Inputs()[i].contents, c.Inputs()[j].contents)
  {
    var f, g := c.Inputs()[i], c.Inputs()[j];
    InputsAreDistinct(c, i, j);
    InputsAreFiles(c);
    assert f in c.Inputs() && g in c.Inputs();
    var l, k := if f in c.inputs0 then c.level else c.level + 1, if g in c.inputs0 then c.level else c.level + 1;
    forall x, y | x in f.contents && y in g.contents && x.key.user == y.key.user
      ensures x.key.seqno != y.key.seqno
    {
      if x.key.seqno == y.key.seqno { SameSource(c.levels, l, f, x, k, g, y); }
    }
  }

  /** No overlap of the user keys with the files of a level. */
  ghost predicate LevelFree(files: seq<Table>, smallest: UserKey, largest: UserKey) {
    forall f :: f in files ==> !Overlaps(f, Some(smallest), Some(largest))
  }

  /**
   * The level a memtable with these user keys is flushed to: down to level 2 as long as nothing overlaps and the
   * files below that overlap stay small.
   */
  method PickLevelForMemTableOutput(levels: seq<seq<Table>>, smallest: UserKey, largest: UserKey, maxFileSize: nat)
    returns (level: nat)
    requires VersionOk(levels)
    ensures level <= MAX_MEM_COMPACT_LEVEL
    ensures level > 0 ==> forall l {:trigger levels[l]} :: 0 <= l <= level ==> LevelFree(levels[l], smallest, largest)
    ensures level < MAX_MEM_COMPACT_LEVEL ==>
              !LevelFree(levels[0], smallest, largest) || !LevelFree(levels[level + 1], smallest, largest)
              || TotalSize(Overlapping(levels[level + 2], Some(smallest), Some(largest))) > 10 * maxFileSize
  {
    level := 0;
    assert TablesOk(levels[0]);
    FirstKeysOk(levels[0]);
    var overlap := SomeFileOverlapsRange(false, levels[0], Some(smallest), Some(largest));
    if !overlap {
      while level < MAX_MEM_COMPACT_LEVEL
        invariant level <= MAX_MEM_COMPACT_LEVEL
        invariant forall l {:trigger levels[l]} :: 0 <= l <= level ==> LevelFree(levels[l], smallest, largest)
      {
        assert TablesOk(levels[level + 1]) && LevelSorted(levels[level + 1]);
        FirstKeysOk(levels[level + 1]);
        overlap := SomeFileOverlapsRange(true, levels[level + 1], Some(smallest), Some(largest));
        if overlap {
          break;
        }
        if level + 2 < NUM_LEVELS {
          var overlaps := GetOverlappingInputs(level + 2, levels[level + 2], Some(smallest), Some(largest));
          var sum := TotalFileSize(overlaps);
          if sum > 10 * maxFileSize {
            break;
          }
        }
        level := level + 1;
      }
    }
  }

  /** A lone file that overlaps little of the level after the next is moved. */
  ghost predicate JustMoves(levels: seq<seq<Table>>, level: nat, inputs0: seq<Table>, inputs1: seq<Table>,
                            maxFileSize: nat) {
    && |inputs0| == 1 && inputs1 == []
    && (level + 2 < |levels| ==>
          var f := inputs0[0];
          TotalSize(Overlapping(levels[level + 2], Some(f.smallest.user), Some(f.largest.user))) <= 10 * maxFileSize)
  }

  /**
   * What an automatic compaction is around: if a level has come to its limit, the next file behind the compaction pointer
   * of the one most over it; else a file that too many seeks have missed, if there is one.
   */
  ghost predicate Triggers(levels: seq<seq<Table>>, pointers: V.Pointers, sought: Option<(nat, Table)>, level: nat,
                           f: Table)
    requires |levels| == NUM_LEVELS
  {
    exists best: nat :: IsBestLevel(levels, best)
      && if Score(levels[best], best) >= 1.0 && levels[best] != []
         then level == best && IsPicked(levels[best], pointers[best], f)
         else sought == Some((level, f))
  }

  /** The inputs of an automatic compaction of a level. */
  ghost predicate PickedInputs(levels: seq<seq<Table>>, pointers: V.Pointers, sought: Option<(nat, Table)>, level: nat,
                               maxFileSize: nat, inputs0: seq<Table>, inputs1: seq<Table>)
    requires |levels| == NUM_LEVELS && level + 1 < |levels|
  {
    exists f :: Triggers(levels, pointers, sought, level, f)
      && SetUpAround(level, levels[level], levels[level + 1], f, maxFileSize, inputs0, inputs1)
  }

  /** Some level has come to its limit. */
  ghost predicate SomeIsFull(levels: seq<seq<Table>>)
    requires |levels| == NUM_LEVELS
  {
    exists l :: 0 <= l < NUM_LEVELS - 1 && Score(levels[l], l) >= 1.0
  }

  /** The level's pointer is now the largest key of the inputs. */
  ghost predicate PointsBehind(was: V.Pointers, now: V.Pointers, level: nat, inputs0: seq<Table>) {
    exists smallest, largest :: IsRange(inputs0, smallest, largest) && level < NUM_LEVELS && now == was[level := Some(largest)]
  }

  /** The step an automatic compaction is: a move of its one input if the source's test says so, or a compaction. */
  ghost predicate TakesPicked(levels: seq<seq<Table>>, was: V.Pointers, now: V.Pointers, sought: Option<(nat, Table)>,
                              maxFileSize: nat, step: Step)
    requires |levels| == NUM_LEVELS && (step.TrivialMove? || step.Compact?) && step.level + 1 < NUM_LEVELS
  {
    exists inputs0, inputs1 :: PickedInputs(levels, was, sought, step.level, maxFileSize, inputs0, inputs1)
      && Takes(step, inputs0, inputs1) && PointsBehind(was, now, step.level, inputs0)
      && (step.TrivialMove? <==> JustMoves(levels, step.level, inputs0, inputs1, maxFileSize))
  }

  ghost predicate Takes(step: Step, inputs0: seq<Table>, inputs1: seq<Table>) {
    if step.TrivialMove? then inputs0 == [step.f]
    else step.Compact? && step.inputs0 == inputs0 && step.inputs1 == inputs1
  }

  lemma OnePointer(pointers: V.Pointers, level: nat, largest: InternalKey)
    requires level < NUM_LEVELS
    ensures V.Pointed(pointers, [(level, largest)]) == pointers[level := Some(largest)]
    ensures V.Pointed(pointers, []) == pointers
  {
    assert [(level, largest)][..0] == [];
  }

  /** A database object, and the state machine's state that it holds. */
  class DBImpl {
    var mem: seq<Entry>
    var imm: Option<seq<Entry>>
    var current: seq<seq<Table>>
    var lastSequence: nat
    var snapshots: seq<nat>
    var nextFileNumber: nat
    var compactPointer: V.Pointers
    var logFileNumber: nat       // the log of the memtable
    var logNumber: nat           // of the version set: earlier logs are no longer needed
    var prevLogNumber: nat
    var manifest: seq<Edit>      // the edits recorded behind the snapshot with which the manifest begins

    function View(): Db
      reads this
    {
      Db(mem, imm, current, lastSequence, snapshots, nextFileNumber, LogNumbers(logFileNumber, logNumber, prevLogNumber))
    }

    constructor ()
      ensures IsNew(View()) && View().Inv() && |manifest| == 1 && Opens(manifest[0], View().levels, [], View())
      ensures View().logs == LogNumbers(logFileNumber, logFileNumber, 0) && 0 < logFileNumber < nextFileNumber
    {
      mem, imm, current := [], None, seq(NUM_LEVELS, _ => []);
      lastSequence, snapshots, nextFileNumber, compactPointer := 0, [], 3, V.NO_POINTERS;
      logFileNumber, logNumber, prevLogNumber := 2, 2, 0;
      var edit := NO_EDIT.(logNumber := Some(2), prevLogNumber := Some(0), nextFileNumber := Some(3),
                           lastSequence := Some(0));
      manifest := [BareEdit(edit)];
      NothingAdded([]);
    }

    /** The operations of a batch are inserted one by one under consecutive sequence numbers. */
    method Write(ops: seq<Op>)
      requires lastSequence + |ops| < MAX_SEQUENCE
      modifies this
      ensures View() == Apply(old(View()), Database.Write(ops)) && compactPointer == old(compactPointer)
      ensures manifest == old(manifest)
    {
      var sequence := lastSequence + 1;
      ghost var before := mem;
      for i := 0 to |ops|
        invariant mem == AddSome(before, ops, i, lastSequence + 1) && sequence == lastSequence + 1 + i
        invariant View() == old(View()).(mem := mem) && compactPointer == old(compactPointer)
        invariant manifest == old(manifest)
      {
        mem := AddEntry(mem, EntryOf(ops[i], sequence));
        sequence := sequence + 1;
      }
      lastSequence := lastSequence + |ops|;
    }

    /** The memtable is full: it becomes the immutable one, which must have been flushed by then. */
    method SwitchMemTable()
      requires imm.None?
      modifies this
      ensures View() == Apply(old(View()), Database.SwitchMemTable) && compactPointer == old(compactPointer)
      ensures manifest == old(manifest)
    {
      logFileNumber := nextFileNumber;
      nextFileNumber := nextFileNumber + 1;
      imm := Some(mem);
      mem := [];
    }

    method GetSnapshot() returns (s: nat)
      modifies this
      ensures View() == Apply(old(View()), Database.GetSnapshot) && s == lastSequence == old(lastSequence)
      ensures multiset(snapshots) == multiset(old(snapshots)) + multiset{s}
      ensures compactPointer == old(compactPointer) && manifest == old(manifest)
    {
      s := lastSequence;
      snapshots := snapshots + [s];
    }

    method ReleaseSnapshot(index: nat)
      requires index < |snapshots|
      modifies this
      ensures View() == Apply(old(View()), Database.ReleaseSnapshot(index)) && compactPointer == old(compactPointer)
      ensures multiset(snapshots) == multiset(old(snapshots)) - multiset{old(snapshots[index])}
      ensures manifest == old(manifest)
    {
      assert snapshots == snapshots[..index] + [snapshots[index]] + snapshots[index + 1..];
      snapshots := snapshots[..index] + snapshots[index + 1..];
    }

    /** An edit with the numbers it is recorded with: its own log numbers, if it has any, and the present other numbers. */
    function Stamped(edit: TableEdit): TableEdit
      reads this
    {
      edit.(logNumber := if edit.logNumber.Some? then edit.logNumber else Some(logNumber),
            prevLogNumber := if edit.prevLogNumber.Some? then edit.prevLogNumber else Some(prevLogNumber),
            nextFileNumber := Some(nextFileNumber), lastSequence := Some(lastSequence))
    }

    /** Records the edit and installs the version that a builder makes from the current one and the edit. */
    method LogAndApply(edit: TableEdit)
      requires |current| == NUM_LEVELS && V.LevelsInRange(edit)
      modifies this`current, this`compactPointer, this`manifest, this`logNumber, this`prevLogNumber
      ensures current == Edited(old(current), edit)
      ensures compactPointer == V.Pointed(old(compactPointer), edit.compactPointers)
      ensures manifest == old(manifest) + [BareEdit(old(Stamped(edit)))]
      ensures Some(logNumber) == old(Stamped(edit)).logNumber && Some(prevLogNumber) == old(Stamped(edit)).prevLogNumber
    {
      var stamped := edit.(nextFileNumber := Some(nextFileNumber), lastSequence := Some(lastSequence));
      if stamped.logNumber.None? {
        stamped := stamped.(logNumber := Some(logNumber));
      }
      if stamped.prevLogNumber.None? {
        stamped := stamped.(prevLogNumber := Some(prevLogNumber));
      }
      var builder := new V.Builder(current, compactPointer);
      builder.Apply(stamped);
      manifest := manifest + [BareEdit(stamped)];
      current := builder.SaveTo();
      compactPointer := builder.compactPointer;
      logNumber, prevLogNumber := stamped.logNumber.value, stamped.prevLogNumber.value;
    }

    /**
     * Flushes the immutable memtable to a table of the given size, unless it is empty, at the level
     * PickLevelForMemTableOutput chooses.
     */
    method CompactMemTable(size: nat, maxFileSize: nat)
      requires View().Inv() && imm.Some?
      modifies this
      ensures exists level :: Allowed(old(View()), Flush(level, size)) && View() == Apply(old(View()), Flush(level, size))
                && Extends(old(manifest), manifest, old(View()), Flush(level, size))
      ensures compactPointer == old(compactPointer)
    {
      hide Db.Inv, FlushLevelOk, Edited, Extends, Database.Added, AddSome;
      var edit: TableEdit;
      ghost var level;
      VersionIsOk(View());
      edit, level := WriteLevel0Table(imm.value, size, maxFileSize);
      edit := edit.(prevLogNumber := Some(0), logNumber := Some(logFileNumber));
      ghost var stamped := Stamped(edit);
      EditInstalls(old(View()), Flush(level, size), stamped);
      SameEdited(current, edit, stamped);
      LogAndApply(edit);
      imm := None;
      PutOnRecord(old(manifest), manifest, old(View()), Flush(level, size), stamped);
    }

    /** Writes a memtable to a table, unless it is empty, and notes in an edit the level where it is to go. */
    method WriteLevel0Table(run: seq<Entry>, size: nat, maxFileSize: nat) returns (edit: TableEdit, ghost level: nat)
      requires VersionOk(current)
      modifies this`nextFileNumber
      ensures nextFileNumber == old(nextFileNumber) + 1 && V.LevelsInRange(edit)
      ensures run != [] ==> FlushLevelOk(current, run, level)
      ensures edit == NO_EDIT.(newFiles := if run == [] then []
                                           else [(level, TableOf(run, old(nextFileNumber), size))])
    {
      edit, level := NO_EDIT, 0;
      var number := nextFileNumber;
      nextFileNumber := nextFileNumber + 1;
      if run != [] {
        var f := TableOf(run, number, size);
        var picked := PickLevelForMemTableOutput(current, f.smallest.user, f.largest.user, maxFileSize);
        level := picked;
        edit := edit.(newFiles := [(picked, f)]);
      }
    }

    /** Whether the compaction just moves a file down: one input, none in the next level, little below that. */
    method IsTrivialMove(level: nat, inputs0: seq<Table>, inputs1: seq<Table>, maxFileSize: nat) returns (trivial: bool)
      requires |current| == NUM_LEVELS && inputs0 != []
      ensures trivial <==> JustMoves(current, level, inputs0, inputs1, maxFileSize)
    {
      var grandparents: seq<Table> := [];
      if level + 2 < NUM_LEVELS {
        var allStart, allLimit := GetRange(inputs0 + inputs1);
        grandparents := GetOverlappingInputs(level + 2, current[level + 2], Some(allStart.user), Some(allLimit.user));
      }
      var sum := TotalFileSize(grandparents);
      trivial := |inputs0| == 1 && inputs1 == [] && sum <= 10 * maxFileSize;
    }

    /** The deletions of AddInputDeletions and the outputs of InstallCompactionResults. */
    method CompactionEdit(level: nat, inputs0: seq<Table>, inputs1: seq<Table>, outputs: seq<Table>, largest: InternalKey)
      returns (edit: TableEdit)
      requires level + 1 < NUM_LEVELS
      ensures V.LevelsInRange(edit) && IsCompactionEdit(edit, level, inputs0, inputs1, outputs)
      ensures edit == NO_EDIT.(compactPointers := [(level, largest)], deletedFiles := edit.deletedFiles,
                               newFiles := edit.newFiles)
    {
      edit := NO_EDIT.(compactPointers := [(level, largest)]);
      for i := 0 to |inputs0|
        invariant edit == NO_EDIT.(compactPointers := [(level, largest)], deletedFiles := edit.deletedFiles)
        invariant forall d :: d in edit.deletedFiles <==> exists k :: 0 <= k < i && d == (level, inputs0[k].number)
      {
        edit := edit.(deletedFiles := V.InsertPair(edit.deletedFiles, (level, inputs0[i].number)));
      }
      ghost var first := edit.deletedFiles;
      for i := 0 to |inputs1|
        invariant edit == NO_EDIT.(compactPointers := [(level, largest)], deletedFiles := edit.deletedFiles)
        invariant forall d :: d in edit.deletedFiles <==>
          d in first || exists k :: 0 <= k < i && d == (level + 1, inputs1[k].number)
      {
        edit := edit.(deletedFiles := V.InsertPair(edit.deletedFiles, (level + 1, inputs1[i].number)));
      }
      for i := 0 to |outputs|
        invariant edit == NO_EDIT.(compactPointers := [(level, largest)], deletedFiles := edit.deletedFiles,
                                   newFiles := edit.newFiles)
        invariant |edit.newFiles| == i && forall k :: 0 <= k < i ==> edit.newFiles[k] == (level + 1, outputs[k])
        invariant forall d :: d in edit.deletedFiles <==>
          d in first || exists k :: 0 <= k < |inputs1| && d == (level + 1, inputs1[k].number)
      {
        edit := edit.(newFiles := edit.newFiles + [(level + 1, outputs[i])]);
      }
    }

    /** Moves a file to the next level. */
    method MoveFile(level: nat, f: Table, largest: InternalKey)
      requires View().Inv() && IsCompaction(Job(current, level, [f], []))
      modifies this
      ensures Allowed(old(View()), TrivialMove(level, f)) && View() == Apply(old(View()), TrivialMove(level, f))
      ensures Extends(old(manifest), manifest, old(View()), TrivialMove(level, f))
      ensures compactPointer == old(compactPointer)[level := Some(largest)]
    {
      MoveIsRewrite(View(), level, f);
      ghost var edit := InstallCompactionResults(level, [f], [], [f], largest);
      PutOnRecord(old(manifest), manifest, old(View()), TrivialMove(level, f), edit);
    }

    /** Merges the inputs into tables with the next free numbers. */
    method BuildOutputs(level: nat, inputs0: seq<Table>, inputs1: seq<Table>,
                        stopBefore: nat -> bool, full: nat -> bool, sizes: nat -> nat)
      returns (outputs: seq<Table>, ghost step: Step)
      requires View().Inv() && IsCompaction(Job(current, level, inputs0, inputs1))
      ensures step.Compact? && step.level == level && step.inputs0 == inputs0 && step.inputs1 == inputs1
      ensures step.outputs == outputs && Allowed(View(), step)
    {
      var oldest := if snapshots == [] then lastSequence else snapshots[0];
      ReadyToMerge(View(), Job(current, level, inputs0, inputs1));
      var input := MergeInputs(inputs0 + inputs1);
      var compaction := new Compactions.Compaction(level, current);
      var runs := compaction.DoCompactionWork(input, oldest, stopBefore, full);
      outputs := MakeTables(runs, nextFileNumber, sizes);
      step := Compact(level, inputs0, inputs1, input, outputs);
      CompactIsAllowed(View(), step, runs);
    }

    /** Replaces the inputs by the outputs in the current version. */
    method InstallCompactionResults(level: nat, inputs0: seq<Table>, inputs1: seq<Table>, outputs: seq<Table>,
                                    largest: InternalKey)
      returns (ghost stamped: TableEdit)
      requires IsCompaction(Job(current, level, inputs0, inputs1))
      requires OutputsOk(Job(current, level, inputs0, inputs1), outputs)
      modifies this`current, this`compactPointer, this`manifest, this`logNumber, this`prevLogNumber
      ensures current == Rewritten(Job(old(current), level, inputs0, inputs1), outputs)
      ensures compactPointer == old(compactPointer)[level := Some(largest)]
      ensures manifest == old(manifest) + [BareEdit(stamped)]
      ensures IsCompactionEdit(stamped, level, inputs0, inputs1, outputs)
      ensures logNumber == old(logNumber) && prevLogNumber == old(prevLogNumber) && CarriesNumbersOf(stamped, View())
    {
      var edit := CompactionEdit(level, inputs0, inputs1, outputs, largest);
      OnePointer(compactPointer, level, largest);
      EditRewrites(Job(current, level, inputs0, inputs1), edit, outputs);
      stamped := Stamped(edit);
      LogAndApply(edit);
    }

    /** Merges the inputs into new files of the next level. */
    method MergeFiles(level: nat, inputs0: seq<Table>, inputs1: seq<Table>, largest: InternalKey,
                      stopBefore: nat -> bool, full: nat -> bool, sizes: nat -> nat)
      returns (ghost step: Step)
      requires View().Inv() && IsCompaction(Job(current, level, inputs0, inputs1))
      modifies this
      ensures step.Compact? && step.level == level && step.inputs0 == inputs0 && step.inputs1 == inputs1
      ensures Allowed(old(View()), step) && View() == Apply(old(View()), step)
      ensures Extends(old(manifest), manifest, old(View()), step)
      ensures compactPointer == old(compactPointer)[level := Some(largest)]
    {
      hide Allowed, Apply, Db.Inv, IsCompaction, OutputsOk, IsCompactionEdit, Extends, Rewritten;
      var outputs;
      outputs, step := BuildOutputs(level, inputs0, inputs1, stopBefore, full, sizes);
      AfterCompact(View(), step);
      nextFileNumber := nextFileNumber + |outputs|;
      ghost var edit := InstallCompactionResults(level, inputs0, inputs1, outputs, largest);
      PutOnRecord(old(manifest), manifest, old(View()), step, edit);
    }

    /** Compacts the inputs picked for a level (BackgroundCompaction): a move or a merge. */
    method RunCompaction(level: nat, inputs0: seq<Table>, inputs1: seq<Table>, largest: InternalKey, isManual: bool,
                         maxFileSize: nat, stopBefore: nat -> bool, full: nat -> bool, sizes: nat -> nat)
      returns (ghost step: Step)
      requires View().Inv() && IsCompaction(Job(current, level, inputs0, inputs1))
      modifies this
      ensures Allowed(old(View()), step) && View() == Apply(old(View()), step)
      ensures Extends(old(manifest), manifest, old(View()), step)
      ensures step.TrivialMove? || step.Compact?
      ensures step.TrivialMove? <==> !isManual && JustMoves(old(current), level, inputs0, inputs1, maxFileSize)
      ensures step.TrivialMove? ==> step.level == level && inputs0 == [step.f]
      ensures step.Compact? ==> step.level == level && step.inputs0 == inputs0 && step.inputs1 == inputs1
      ensures compactPointer == old(compactPointer)[level := Some(largest)]
    {
      var trivial := IsTrivialMove(level, inputs0, inputs1, maxFileSize);
      if !isManual && trivial {
        assert inputs0 == [inputs0[0]];
        MoveFile(level, inputs0[0], largest);
        step := TrivialMove(level, inputs0[0]);
      } else {
        step := MergeFiles(level, inputs0, inputs1, largest, stopBefore, full, sizes);
      }
    }

    /** What an automatic compaction is to be around, if there is to be one. */
    method PickTarget(sought: Option<(nat, Table)>) returns (target: Option<(nat, Table)>)
      requires View().Inv() && |current| == NUM_LEVELS
      requires sought.Some? ==> sought.value.0 + 1 < NUM_LEVELS && sought.value.1 in current[sought.value.0]
      ensures target.None? <==> !SomeIsFull(current) && sought.None?
      ensures target.Some? ==>
        && target.value.0 + 1 < NUM_LEVELS && target.value.1 in current[target.value.0]
        && Triggers(current, compactPointer, sought, target.value.0, target.value.1)
    {
      hide IsPicked, Db.Inv;
      var level, score := Finalize(current);
      target := sought;
      if score >= 1.0 {
        FullIsNotEmpty(current[level], level);
        var f := PickFile(current[level], compactPointer[level]);
        target := Some((level, f));
      }
    }

    /** The inputs of an automatic compaction: the file it is around and what belongs to it. */
    method PickInputs(level: nat, f: Table, ghost sought: Option<(nat, Table)>, maxFileSize: nat)
      returns (inputs0: seq<Table>, inputs1: seq<Table>)
      requires View().Inv() && |current| == NUM_LEVELS && level + 1 < NUM_LEVELS && f in current[level]
      requires Triggers(current, compactPointer, sought, level, f)
      ensures IsCompaction(Job(current, level, inputs0, inputs1)) && inputs0 != []
      ensures PickedInputs(current, compactPointer, sought, level, maxFileSize, inputs0, inputs1)
    {
      hide SetUpAround, Triggers;
      CompactableLevels(current, level);
      inputs0, inputs1 := CompactAround(level, current[level], current[level + 1], f, maxFileSize);
    }

    /** The end of SetupOtherInputs: the next compaction of the level starts behind this one, even if this one fails. */
    method SetCompactPointer(level: nat, inputs0: seq<Table>) returns (largest: InternalKey)
      requires level < NUM_LEVELS && inputs0 != []
      modifies this`compactPointer
      ensures compactPointer == old(compactPointer)[level := Some(largest)] && exists smallest :: IsRange(inputs0, smallest, largest)
    {
      var smallest;
      smallest, largest := GetRange(inputs0);
      compactPointer := compactPointer[level := Some(largest)];
    }

    /** An automatic compaction, if one is called for; `sought` is the file that too many seeks have missed. */
    method PickCompaction(sought: Option<(nat, Table)>, maxFileSize: nat, stopBefore: nat -> bool, full: nat -> bool,
                          sizes: nat -> nat)
      returns (ghost step: Option<Step>)
      requires View().Inv() && |current| == NUM_LEVELS
      requires sought.Some? ==> sought.value.0 + 1 < NUM_LEVELS && sought.value.1 in current[sought.value.0]
      modifies this
      ensures step.None? <==> !SomeIsFull(old(current)) && sought.None?
      ensures step.None? ==> View() == old(View()) && compactPointer == old(compactPointer) && manifest == old(manifest)
      ensures step.Some? ==>
        && (step.value.TrivialMove? || step.value.Compact?) && step.value.level + 1 < NUM_LEVELS
        && Allowed(old(View()), step.value) && View() == Apply(old(View()), step.value)
        && Extends(old(manifest), manifest, old(View()), step.value)
        && TakesPicked(old(current), old(compactPointer), compactPointer, sought, maxFileSize, step.value)
    {
      hide PickedInputs, JustMoves, Triggers, SomeIsFull, Db.Inv, Allowed, Apply, Extends, IsCompaction;
      var target := PickTarget(sought);
      step := None;
      if target.Some? {
        var inputs0, inputs1 := PickInputs(target.value.0, target.value.1, sought, maxFileSize);
        var largest := SetCompactPointer(target.value.0, inputs0);
        ghost var taken := RunCompaction(target.value.0, inputs0, inputs1, largest, false, maxFileSize, stopBefore, full,
                                         sizes);
        assert Takes(taken, inputs0, inputs1) && PointsBehind(old(compactPointer), compactPointer, taken.level, inputs0);
        step := Some(taken);
      }
    }

    /** The inputs of a manual compaction of a key range; none when no file of the level overlaps it. */
    method RangeInputs(level: nat, begin: Bound, end: Bound, maxFileSize: nat)
      returns (inputs0: seq<Table>, inputs1: seq<Table>)
      requires View().Inv() && level + 1 < NUM_LEVELS
      ensures inputs0 == [] <==> IsOverlapSet(level, current[level], begin, end, [])
      ensures inputs0 != [] ==> IsCompaction(Job(current, level, inputs0, inputs1))
      ensures inputs0 != [] ==>
        SetUpInRange(level, current[level], current[level + 1], begin, end, maxFileSize, inputs0, inputs1)
    {
      hide SetUpInRange, IsOverlapSet, ChosenInputs, NextLevelInputs;
      CompactableLevels(current, level);
      inputs0, inputs1 := Inputs.CompactRange(level, current[level], current[level + 1], begin, end, maxFileSize);
    }

    method ManualCompaction(level: nat, begin: Bound, end: Bound, maxFileSize: nat,
                            stopBefore: nat -> bool, full: nat -> bool, sizes: nat -> nat)
      returns (done: bool, ghost step: Option<Step>)
      requires View().Inv() && level + 1 < NUM_LEVELS
      modifies this
      ensures done <==> IsOverlapSet(level, old(current)[level], begin, end, [])
      ensures done ==> View() == old(View()) && compactPointer == old(compactPointer) && manifest == old(manifest)
      ensures !done ==> step.Some? && step.value.Compact? && step.value.level == level
      ensures !done ==> Allowed(old(View()), step.value) && View() == Apply(old(View()), step.value)
      ensures !done ==> Extends(old(manifest), manifest, old(View()), step.value)
      ensures !done ==> SetUpInRange(level, old(current)[level], old(current)[level + 1], begin, end, maxFileSize,
                                     step.value.inputs0, step.value.inputs1)
      ensures !done ==> PointsBehind(old(compactPointer), compactPointer, level, step.value.inputs0)
    {
      hide SetUpInRange, JustMoves;
      var inputs0, inputs1 := RangeInputs(level, begin, end, maxFileSize);
      done, step := inputs0 == [], None;
      if !done {
        var largest := SetCompactPointer(level, inputs0);
        ghost var taken := RunCompaction(level, inputs0, inputs1, largest, true, maxFileSize, stopBefore, full, sizes);
        step := Some(taken);
      }
    }

    /**
     * The value of a key at a snapshot, or at present: the memtable, then the immutable memtable, then the version,
     * stopping at the first hit.
     */
    method Get(u: UserKey, snapshot: Option<nat>) returns (r: Option<Bytes>)
      requires View().Inv()
      ensures ReadsAs(View().Contents(), u, if snapshot.Some? then snapshot.value else lastSequence, r)
    {
      var s := if snapshot.Some? then snapshot.value else lastSequence;
      var saver := RunGet(mem, u, s);
      RunGetAnswers(mem, u, s);
      ghost var older := EntrySet(View().Imm()) + EntriesFrom(current, 0);
      if saver != NotFound {
        FirstHitAnswers(EntrySet(mem), older, u, s, saver);
      } else {
        saver := GetBelowMem(u, s);
        MissPassesOn(EntrySet(mem), older, u, s, saver);
      }
      assert View().Contents() == EntrySet(mem) + older;
      r := if saver.Found? then Some(saver.value) else None;
    }

    /** The search goes on in the immutable memtable, if there is one, and in the current version. */
    method GetBelowMem(u: UserKey, s: nat) returns (saver: Saver)
      requires View().Inv()
      ensures Answers(EntrySet(View().Imm()) + EntriesFrom(current, 0), u, s, saver)
    {
      saver := NotFound;
      if imm.Some? {
        saver := RunGet(imm.value, u, s);
      }
      RunGetAnswers(View().Imm(), u, s);
      if saver != NotFound {
        FirstHitAnswers(EntrySet(View().Imm()), EntriesFrom(current, 0), u, s, saver);
      } else {
        saver := VersionGet(current, u, s);
        MissPassesOn(EntrySet(View().Imm()), EntriesFrom(current, 0), u, s, saver);
      }
    }
  }

  lemma CompactableLevels(levels: seq<seq<Table>>, level: nat)
    requires VersionOk(levels) && level + 1 < |levels|
    ensures RangesOk(levels[level]) && RangesOk(levels[level + 1]) && (level > 0 ==> LevelSorted(levels[level]))
  {
    assert TablesOk(levels[level]) && TablesOk(levels[level + 1]);
    assert level > 0 ==> LevelSorted(levels[level]);
    FirstKeysOk(levels[level]);
    FirstKeysOk(levels[level + 1]);
  }

  lemma VersionIsOk(db: Db)
    requires db.Inv()
    ensures VersionOk(db.levels) && |db.levels| == NUM_LEVELS
  {
  }

  lemma ReadyToMerge(db: Db, c: Job)
    requires db.Inv() && c.levels == db.levels && IsCompaction(c)
    ensures TablesOk(c.Inputs()) && db.OldestSnapshot() < MAX_SEQUENCE
    ensures forall i, j :: 0 <= i < j < |c.Inputs()| ==> NoClash(c.Inputs()[i].contents, c.Inputs()[j].contents)
    ensures forall l :: 1 <= l < |db.levels| ==> RangesOk(db.levels[l]) && LevelSorted(db.levels[l])
  {
    InputTablesOk(c);
    forall i, j | 0 <= i < j < |c.Inputs()|
      ensures NoClash(c.Inputs()[i].contents, c.Inputs()[j].contents)
    {
      InputsDoNotClash(c, i, j);
    }
    InputLevelsOk(db.levels);
  }

  lemma CompactIsAllowed(db: Db, step: Step, runs: seq<seq<Entry>>)
    requires db.Inv() && step.Compact? && IsCompaction(MergeOf(db, step).c)
    requires Sorted(step.input) && EntrySet(step.input) == EntriesIn(step.inputs0 + step.inputs1)
    requires Flatten(runs) == MergeOf(db, step).Kept() && |step.outputs| == |runs|
    requires forall i {:trigger step.outputs[i]} :: 0 <= i < |runs| ==>
      runs[i] != [] && step.outputs[i] == TableOf(runs[i], db.nextFileNumber + i, step.outputs[i].size)
    ensures Allowed(db, step)
  {
    assert Runs(step.outputs) == runs;
    assert MergeOf(db, step).Valid();
  }

  lemma InputLevelsOk(levels: seq<seq<Table>>)
    requires VersionOk(levels)
    ensures forall l :: 1 <= l < |levels| ==> RangesOk(levels[l]) && LevelSorted(levels[l])
  {
    forall l | 1 <= l < |levels|
      ensures RangesOk(levels[l]) && LevelSorted(levels[l])
    {
      assert TablesOk(levels[l]) && LevelSorted(levels[l]);
      FirstKeysOk(levels[l]);
    }
  }

  lemma AfterCompact(db: Db, step: Step)
    requires db.Inv() && step.Compact? && Allowed(db, step)
    ensures OutputsOk(Job(db.levels, step.level, step.inputs0, step.inputs1), step.outputs)
    ensures IsCompaction(Job(db.levels, step.level, step.inputs0, step.inputs1))
    ensures step.level + 1 < |db.levels|
    ensures Apply(db, step) ==
            db.(levels := Rewritten(Job(db.levels, step.level, step.inputs0, step.inputs1), step.outputs),
                nextFileNumber := db.nextFileNumber + |step.outputs|)
  {
    CompactOutputsOk(db, step);
    hide Db.Inv, OutputsOk, OutputsFor, Rewritten;
  }

  /** The files written for the runs, with consecutive numbers. */
  method MakeTables(runs: seq<seq<Entry>>, first: nat, sizes: nat -> nat) returns (tables: seq<Table>)
    requires forall run :: run in runs ==> run != []
    ensures |tables| == |runs|
    ensures forall i :: 0 <= i < |runs| ==> runs[i] != [] && tables[i] == TableOf(runs[i], first + i, sizes(i))
  {
    tables := [];
    for i := 0 to |runs|
      invariant |tables| == i
      invariant forall k :: 0 <= k < i ==> runs[k] != [] && tables[k] == TableOf(runs[k], first + k, sizes(k))
    {
      assert runs[i] in runs;
      tables := tables + [TableOf(runs[i], first + i, sizes(i))];
    }
  }
}
