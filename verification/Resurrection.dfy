/** A run of a new database whose last step, a compaction, brings a deleted key back. */
module Resurrection {
  import opened Wrappers
  import opened Sequences
  import opened InternalKeys
  import opened Files
  import opened Inputs
  import opened Compactions
  import opened Lookup
  import opened Rewrites
  import opened CompactionReads
  import opened Database
  import opened DatabaseInvariant
  import opened DatabaseReads
  import V = Versions

  const DeletedValue := Entry(InternalKey(2.0, 1, Value), [1])
  const OldValue := Entry(InternalKey(1.0, 2, Value), [2])
  const DeletedEntry := Entry(InternalKey(2.0, 3, Deletion), [])
  const NewValue := Entry(InternalKey(1.0, 4, Value), [3])

  const FirstRun: seq<Entry> := [OldValue, DeletedEntry, DeletedValue]
  const FirstOps: seq<Op> := [Op(Value, 2.0, [1])]
  const MoreOps: seq<Op> := [Op(Value, 1.0, [2]), Op(Deletion, 2.0, [])]
  const LastOps: seq<Op> := [Op(Value, 1.0, [3])]

  // The tables, numbered from the first free number on; every switch of memtables takes a number for the log

  function First(n: nat): Table { TableOf(FirstRun, n + 1, 0) }

  function Left(n: nat): Table { TableOf([OldValue, DeletedEntry], n + 2, 0) }

  function Right(n: nat): Table { TableOf([DeletedValue], n + 3, 0) }

  function Upper(n: nat): Table { TableOf([NewValue], n + 5, 0) }

  function Output(n: nat): Table { TableOf([NewValue], n + 6, 0) }

  /** Only the second and the third level are used. */
  function LevelsOf(upper: seq<Table>, lower: seq<Table>): seq<seq<Table>> {
    [[], upper, lower, [], [], [], []]
  }

  // The steps

  const NoneFlushed: Option<seq<Entry>> := None

  function Start(n: nat, logs: LogNumbers): Db { Db([], NoneFlushed, LevelsOf([], []), 0, [], n, logs) }

  function Filled(n: nat, logs: LogNumbers): Db { Db(FirstRun, NoneFlushed, LevelsOf([], []), 3, [1], n, logs) }

  function Flushed(n: nat): Db { Db([], NoneFlushed, LevelsOf([First(n)], []), 3, [1], n + 2, LogNumbers(n, n, 0)) }

  function Split(n: nat): Db {
    Db([], NoneFlushed, LevelsOf([], [Left(n), Right(n)]), 3, [1], n + 4, LogNumbers(n, n, 0))
  }

  function Before(n: nat): Db {
    Db([], NoneFlushed, LevelsOf([Upper(n)], [Left(n), Right(n)]), 4, [], n + 6, LogNumbers(n + 4, n + 4, 0))
  }

  /** The deletion and the value go to different files, both kept for the snapshot. */
  function SplitStep(n: nat): Step { Compact(1, [First(n)], [], FirstRun, [Left(n), Right(n)]) }

  function LastStep(n: nat): Step {
    Compact(1, [Upper(n)], [Left(n)], [NewValue, OldValue, DeletedEntry], [Output(n)])
  }

  ghost predicate Leads(db: Db, steps: seq<Step>, end: Db) { DatabaseReads.IsRun(db, steps) && EndOf(db, steps) == end }

  lemma {:induction false} LeadsOn(db: Db, steps: seq<Step>, mid: Db, more: seq<Step>, end: Db)
    requires Leads(db, steps, mid) && Leads(mid, more, end)
    ensures Leads(db, steps + more, end)
    decreases |steps|
  {
    hide Allowed, Apply;
    if steps == [] {
      assert steps + more == more;
    } else {
      LeadsOn(Apply(db, steps[0]), steps[1..], mid, more, end);
      assert (steps + more)[1..] == steps[1..] + more;
    }
  }

  lemma OneStep(db: Db, step: Step, end: Db)
    requires Allowed(db, step) && Apply(db, step) == end
    ensures Leads(db, [step], end)
  {
    assert [step][1..] == [];
    assert DatabaseReads.IsRun(end, []);
  }

  lemma WritesFirst(n: nat, logs: LogNumbers) returns (steps: seq<Step>)
    ensures Leads(Start(n, logs), steps, Filled(n, logs))
  {
    var a := Start(n, logs).(mem := [DeletedValue], lastSequence := 1);
    assert AddSome([], FirstOps, 1, 1) == [DeletedValue] by { assert AddSome([], FirstOps, 0, 1) == []; }
    OneStep(Start(n, logs), Write(FirstOps), a);
    var b := a.(snapshots := [1]);
    OneStep(a, Step.GetSnapshot, b);
    LeadsOn(Start(n, logs), [Write(FirstOps)], a, [Step.GetSnapshot], b);
    AddsTwo();
    OneStep(b, Write(MoreOps), Filled(n, logs));
    steps := [Write(FirstOps)] + [Step.GetSnapshot] + [Write(MoreOps)];
    LeadsOn(Start(n, logs), [Write(FirstOps)] + [Step.GetSnapshot], b, [Write(MoreOps)], Filled(n, logs));
  }

  lemma AddsTwo()
    ensures AddSome([DeletedValue], MoreOps, 2, 2) == FirstRun
  {
    assert AddSome([DeletedValue], MoreOps, 0, 2) == [DeletedValue];
    assert EntryOf(MoreOps[0], 2) == OldValue && EntryOf(MoreOps[1], 3) == DeletedEntry;
    assert AddSome([DeletedValue], MoreOps, 1, 2) == [OldValue, DeletedValue];
    assert [OldValue, DeletedValue][1..] == [DeletedValue];
    assert AddEntry([DeletedValue], DeletedEntry) == [DeletedEntry, DeletedValue];
  }

  /** A memtable is flushed to the second level, which is empty. */
  lemma Flushes(db: Db, run: seq<Entry>, lower: seq<Table>, end: Db) returns (steps: seq<Step>)
    requires run != []
    requires db == Db(run, NoneFlushed, LevelsOf([], lower), db.lastSequence, db.snapshots, db.nextFileNumber, db.logs)
    requires end == db.(mem := [], levels := LevelsOf([TableOf(run, db.nextFileNumber + 1, 0)], lower),
                        nextFileNumber := db.nextFileNumber + 2,
                        logs := LogNumbers(db.nextFileNumber, db.nextFileNumber, 0))
    ensures Leads(db, steps, end)
  {
    var mid := db.(imm := Some(run), mem := [], nextFileNumber := db.nextFileNumber + 1,
                   logs := db.logs.(file := db.nextFileNumber));
    OneStep(db, Step.SwitchMemTable, mid);
    var t := TableOf(run, mid.nextFileNumber, 0);
    assert V.SaveLevel([], {}, V.InsertAll([], [t])) == [t] by { SaveOne(t); }
    assert Added(mid.levels, 1, t) == LevelsOf([t], lower);
    OneStep(mid, Step.Flush(1, 0), end);
    LeadsOn(db, [Step.SwitchMemTable], mid, [Step.Flush(1, 0)], end);
    steps := [Step.SwitchMemTable] + [Step.Flush(1, 0)];
  }

  lemma SaveOne(t: Table)
    ensures V.SaveLevel([], {}, V.InsertAll([], [t])) == [t]
  {
    assert [t][..0] == [] && V.InsertAll([], [t]) == [t];
    assert [t][1..] == [];
    assert V.Merge([], [t]) == [t] + V.Merge([], []);
    assert V.Keep([t], {}) == [t] + V.Keep([], {});
  }

  lemma SaveTwo(n: nat)
    ensures V.SaveLevel([], {}, V.InsertAll([], [Left(n), Right(n)])) == [Left(n), Right(n)]
  {
    var a, b := Left(n), Right(n);
    assert [a, b][..1] == [a] && [a][..0] == [] && V.InsertAll([], [a]) == [a];
    assert [a][1..] == [] && V.Insert([a], b) == [a] + V.Insert([], b);
    assert V.InsertAll([], [a, b]) == [a, b];
    assert [a, b][1..] == [b] && [b][1..] == [];
    assert V.Merge([], [a, b]) == [a] + V.Merge([], [b]);
    assert V.Keep([a, b], {}) == [a] + V.Keep([b], {});
  }

  /** Deleting the only file of a level. */
  lemma SaveNone(t: Table)
    ensures V.SaveLevel([t], V.Numbers([t]), []) == []
  {
    var numbers := V.Numbers([t]);
    assert t.number in numbers by { assert [t][0].number in numbers; }
    assert [t][1..] == [];
    assert V.Merge([t], []) == [t];
    assert V.Keep([t], numbers) == V.Keep([], numbers);
  }

  lemma SplitInputs(n: nat)
    requires Flushed(n).Inv()
    ensures IsCompaction(MergeOf(Flushed(n), SplitStep(n)).c)
  {
    var db, t := Flushed(n), First(n);
    assert db.levels[1] == [t] && db.levels[2] == [];
    assert IsCleanSlice([t], [t], 0, 1);
    assert IsRange([t], t.smallest, t.largest);
    assert Overlapping<seq<Entry>>([], Some(t.smallest.user), Some(t.largest.user)) == [];
  }

  lemma SplitIsValid(n: nat)
    requires Flushed(n).Inv()
    ensures MergeOf(Flushed(n), SplitStep(n)).Valid()
  {
    SplitInputs(n);
    var m := MergeOf(Flushed(n), SplitStep(n));
    hide IsCompaction, Db.Inv;
    assert m.c.Inputs() == [First(n)];
    EntriesOfOne(First(n));
    assert m.newer == {};
  }

  lemma SplitIsAllowed(n: nat)
    requires Flushed(n).Inv()
    ensures Allowed(Flushed(n), SplitStep(n)) && Apply(Flushed(n), SplitStep(n)) == Split(n)
  {
    SplitIsValid(n);
    SplitKeepsAll(n);
    FlattenTwo(n);
    SplitLevels(n);
    hide Merge.Valid, Db.Inv, Survivors, Flatten, Rewritten;
  }

  lemma SplitLevels(n: nat)
    ensures Rewritten(Job(Flushed(n).levels, 1, [First(n)], []), [Left(n), Right(n)]) == Split(n).levels
  {
    SaveNone(First(n));
    SaveTwo(n);
    assert V.Numbers<seq<Entry>>([]) == {};
    hide V.SaveLevel, V.InsertAll;
  }

  lemma EntriesOfOne(t: Table)
    ensures EntriesIn([t]) == EntrySet(t.contents)
  {
    assert t in [t];
  }

  lemma FlattenTwo(n: nat)
    ensures Flatten(Runs([Left(n), Right(n)])) == FirstRun
  {
    var a: seq<Entry>, b: seq<Entry> := [OldValue, DeletedEntry], [DeletedValue];
    assert Runs([Left(n), Right(n)]) == [a, b];
    assert [a, b][..1] == [a] && [a][..0] == [];
    assert Flatten([a]) == Flatten([]) + a && Flatten([a, b]) == Flatten([a]) + b;
  }

  lemma SplitKeepsAll(n: nat)
    ensures MergeOf(Flushed(n), SplitStep(n)).Kept() == FirstRun
  {
    var levels := Flushed(n).levels;
    assert forall i :: 0 <= i < 3 ==> !Dropped(levels, 1, FirstRun, i, 1);
    assert Survivors(levels, 1, FirstRun, 0, 1) == [];
    assert Survivors(levels, 1, FirstRun, 1, 1) == [OldValue];
    assert Survivors(levels, 1, FirstRun, 2, 1) == [OldValue, DeletedEntry];
  }

  /** All but the last step. */
  lemma RunsUp(n: nat, logs: LogNumbers) returns (steps: seq<Step>)
    ensures Leads(Start(n, logs), steps, Before(n))
  {
    steps := WritesFirst(n, logs);
    var more := Flushes(Filled(n, logs), FirstRun, [], Flushed(n));
    LeadsOn(Start(n, logs), steps, Filled(n, logs), more, Flushed(n));
    steps := steps + more;
    assert IsNew(Start(n, logs)) by { assert Start(n, logs).levels == seq(NUM_LEVELS, _ => []); }
    ReachableIsInOrder(Start(n, logs), steps);
    SplitIsAllowed(n);
    OneStep(Flushed(n), SplitStep(n), Split(n));
    LeadsOn(Start(n, logs), steps, Flushed(n), [SplitStep(n)], Split(n));
    steps := steps + [SplitStep(n)];
    more := RunsOn(n);
    LeadsOn(Start(n, logs), steps, Split(n), more, Before(n));
    steps := steps + more;
  }

  /** The snapshot is released and key 1 is written again. */
  lemma RunsOn(n: nat) returns (steps: seq<Step>)
    ensures Leads(Split(n), steps, Before(n))
  {
    var a := Split(n).(snapshots := []);
    assert [1][..0] + [1][1..] == [];
    OneStep(Split(n), Step.ReleaseSnapshot(0), a);
    var b := a.(mem := [NewValue], lastSequence := 4);
    assert AddSome([], LastOps, 1, 4) == [NewValue] by { assert AddSome([], LastOps, 0, 4) == []; }
    OneStep(a, Write(LastOps), b);
    LeadsOn(Split(n), [Step.ReleaseSnapshot(0)], a, [Write(LastOps)], b);
    var more := Flushes(b, [NewValue], [Left(n), Right(n)], Before(n));
    LeadsOn(Split(n), [Step.ReleaseSnapshot(0)] + [Write(LastOps)], b, more, Before(n));
    steps := [Step.ReleaseSnapshot(0)] + [Write(LastOps)] + more;
  }

  // The last step

  lemma VersionInOrder(db: Db)
    requires db.Inv()
    ensures VersionOk(db.levels) && UniqueNumbers(db.levels) && LevelsOrdered(db.levels)
  {
  }

  lemma LastInputs(n: nat)
    requires Before(n).Inv()
    ensures IsCompaction(MergeOf(Before(n), LastStep(n)).c)
  {
    hide Db.Inv, VersionOk, UniqueNumbers, LevelsOrdered;
    var db := Before(n);
    var u, l, r := Upper(n), Left(n), Right(n);
    VersionInOrder(db);
    assert db.levels[1] == [u] && db.levels[2] == [l, r];
    assert IsCleanSlice([u], [u], 0, 1);
    assert IsRange([u], u.smallest, u.largest);
    var lo := Some(1.0);
    assert [l, r][..1] == [l] && [l][..0] == [];
    assert Overlapping([l], lo, lo) == [l];
    assert Overlapping([l, r], lo, lo) == [l];
  }

  lemma LastIsValid(n: nat)
    requires Before(n).Inv()
    ensures MergeOf(Before(n), LastStep(n)).Valid()
  {
    LastInputs(n);
    var m, u, l := MergeOf(Before(n), LastStep(n)), Upper(n), Left(n);
    assert m.c.Inputs() == [u, l];
    assert EntrySet(m.input) == EntriesIn([u, l]) by {
      assert u in [u, l] && l in [u, l];
      forall e | e in EntrySet(m.input)
        ensures e in EntriesIn([u, l])
      {
        assert e in u.contents || e in l.contents;
      }
    }
    assert m.newer == {};
  }

  lemma LastKeepsOne(n: nat)
    ensures MergeOf(Before(n), LastStep(n)).Kept() == [NewValue]
  {
    var levels, input: seq<Entry> := Before(n).levels, [NewValue, OldValue, DeletedEntry];
    assert !Dropped(levels, 1, input, 0, 4);
    assert Hidden(input, 1, 4) by { assert input[0].key.user == input[1].key.user; }
    assert Obsolete(levels, 1, input[2], 4);
    assert Survivors(levels, 1, input, 0, 4) == [];
    assert Survivors(levels, 1, input, 1, 4) == [NewValue];
    assert Survivors(levels, 1, input, 2, 4) == [NewValue];
  }

  lemma LastIsAllowed(n: nat)
    requires Before(n).Inv()
    ensures Allowed(Before(n), LastStep(n))
  {
    LastIsValid(n);
    LastKeepsOne(n);
    var run: seq<Entry> := [NewValue];
    assert Runs([Output(n)]) == [run];
    assert [run][..0] == [] && Flatten([run]) == Flatten([]) + run;
  }

  /** The deletion ends the file it is in and is the newest entry of its key; its value begins the next. */
  lemma LastBoundary(n: nat)
    ensures BoundaryDeletion(MergeOf(Before(n), LastStep(n)), 1, DeletedEntry)
  {
    var m, levels := MergeOf(Before(n), LastStep(n)), Before(n).levels;
    assert levels[2] == [Left(n), Right(n)] && levels[1] == [Upper(n)];
    assert Left(n) in m.c.inputs1 && DeletedEntry in Left(n).contents;
    assert IsNewest(m.Before(), 2.0, 4, DeletedEntry) by {
      assert m.newer == {};
      assert Left(n) in levels[2];
      forall x | x in m.Before() && Visible(x, 2.0, 4)
        ensures x.key.seqno <= 3
      {
        var l: nat, f: Table :| l < |levels| && f in levels[l] && x in f.contents;
        assert f == Upper(n) || f == Left(n) || f == Right(n);
      }
    }
  }

  lemma LastReads(n: nat)
    requires Before(n).Inv() && Allowed(Before(n), LastStep(n))
    ensures ReadsAs(Before(n).Contents(), 2.0, 4, None)
    ensures ReadsAs(Apply(Before(n), LastStep(n)).Contents(), 2.0, 4, Some([1]))
  {
    var db, step := Before(n), LastStep(n);
    LastBoundary(n);
    LastLevels(n);
    hide Db.Inv, Allowed, BoundaryDeletion, Rewritten, Merge.Valid;
    BoundaryComesBack(db, step, 1, DeletedEntry);
  }

  lemma LastLevels(n: nat)
    ensures Before(n).levels[2] == [Left(n), Right(n)] && Right(n).contents == [DeletedValue]
  {
  }

  /** A compaction of any database that drops such a deletion. */
  lemma BoundaryComesBack(db: Db, step: Step, b: nat, e: Entry)
    requires db.Inv() && step.Compact? && Allowed(db, step) && BoundaryDeletion(MergeOf(db, step), b, e)
    ensures ReadsAs(db.Contents(), e.key.user, db.OldestSnapshot(), None)
    ensures var next := db.levels[step.level + 1];
            && b < |next| && next[b].contents != [] && next[b].contents[0].key.kind == Value
            && ReadsAs(Apply(db, step).Contents(), e.key.user, db.OldestSnapshot(), Some(next[b].contents[0].value))
  {
    hide Db.Inv, Merge.Valid, OutputsOk, OutputsFor, Rewritten, EntriesFrom, EntriesIn, IsResult, Survivors;
    var m, after := MergeOf(db, step), Apply(db, step);
    CompactOutputsOk(db, step);
    CompactedContents(db, step);
    ResultOf(m, step.outputs);
    BoundaryValue(m, b, e);
    hide Apply, Allowed, BoundaryDeletion, IsNewest;
    DeletedKeyComesBack(m, after.Contents(), b, e);
    NewestIsRead(after.Contents(), e.key.user, db.OldestSnapshot(), db.levels[step.level + 1][b].contents[0]);
  }

  lemma BoundaryValue(m: Merge, b: nat, e: Entry)
    requires BoundaryDeletion(m, b, e)
    ensures var next := m.c.levels[m.c.level + 1];
            b < |next| && next[b].contents != [] && next[b].contents[0].key.kind == Value
  {
  }

  lemma NewestIsRead(all: set<Entry>, u: UserKey, s: nat, e: Entry)
    requires IsNewest(all, u, s, e) && e.key.kind == Value
    ensures ReadsAs(all, u, s, Some(e.value))
  {
  }

  lemma CompactedContents(db: Db, step: Step)
    requires step.Compact? && Allowed(db, step)
    ensures var m := MergeOf(db, step);
            && db.Contents() == m.Before()
            && Apply(db, step).Contents() == m.newer + EntriesFrom(Rewritten(m.c, step.outputs), 0)
  {
    hide Merge.Valid, OutputsFor, Rewritten, EntriesFrom;
  }

  lemma StartIs(db: Db)
    requires IsNew(db)
    ensures db == Start(db.nextFileNumber, db.logs)
  {
    assert db.levels == LevelsOf([], []);
  }

  /**
   * Every new database can come to a state where the present reads key 2 as deleted, and where a compaction lets the
   * present read the value that was deleted.
   */
  lemma CompactionCanResurrect(db: Db) returns (steps: seq<Step>, last: Step)
    requires IsNew(db)
    ensures DatabaseReads.IsRun(db, steps) && last.Compact? && Allowed(EndOf(db, steps), last)
    ensures var before := EndOf(db, steps);
            && ReadsAs(before.Contents(), 2.0, before.lastSequence, None)
            && ReadsAs(Apply(before, last).Contents(), 2.0, before.lastSequence, Some([1]))
            && Apply(before, last).lastSequence == before.lastSequence
  {
    var n := db.nextFileNumber;
    StartIs(db);
    steps := RunsUp(n, db.logs);
    last := LastStep(n);
    ReachableIsInOrder(db, steps);
    LastIsAllowed(n);
    LastReads(n);
  }
}
