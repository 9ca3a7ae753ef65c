/** Every step keeps the database in order. */
module DatabaseInvariant {
  import opened Sequences
  import opened InternalKeys
  import opened Files
  import opened Compactions
  import opened Lookup
  import opened Rewrites
  import opened CompactionReads
  import V = Versions
  import opened Database

  // Writes

  lemma {:induction false} AddEntryContents(run: seq<Entry>, e: Entry)
    ensures EntrySet(AddEntry(run, e)) == EntrySet(run) + {e}
  {
    if !(run == [] || !Before(run[0].key, e.key)) {
      assert run == [run[0]] + run[1..];
      AddEntryContents(run[1..], e);
      assert forall x :: x in AddEntry(run[1..], e) <==> x in EntrySet(AddEntry(run[1..], e));
    }
  }

  lemma {:induction false} AddEntrySorted(run: seq<Entry>, e: Entry)
    requires Sorted(run) && forall x :: x in run && x.key.user == e.key.user ==> x.key.seqno != e.key.seqno
    ensures Sorted(AddEntry(run, e))
  {
    if run == [] {
    } else if !Before(run[0].key, e.key) {
      assert run[0] in run;
    } else {
      var rest := AddEntry(run[1..], e);
      AddEntrySorted(run[1..], e);
      AddEntryContents(run[1..], e);
      forall j | 0 <= j < |rest|
        ensures Precedes(run[0].key, rest[j].key)
      {
        assert rest[j] in EntrySet(rest) && run[0] in run;
        if rest[j] != e {
          var k :| 0 <= k < |run[1..]| && run[1..][k] == rest[j];
          assert run[k + 1] == rest[j];
        }
      }
    }
  }

  lemma AddedOne(run: seq<Entry>, before: set<Entry>, ops: set<Entry>, e: Entry)
    requires EntrySet(run) == before + ops
    ensures EntrySet(AddEntry(run, e)) == before + (ops + {e})
  {
    AddEntryContents(run, e);
    assert (before + ops) + {e} == before + (ops + {e});
  }

  lemma {:induction false} AddSomeContents(run: seq<Entry>, ops: seq<Op>, n: nat, first: nat)
    requires n <= |ops|
    ensures EntrySet(AddSome(run, ops, n, first)) == EntrySet(run) + SomeEntries(ops, n, first)
  {
    if n > 0 {
      AddSomeContents(run, ops, n - 1, first);
      AddedOne(AddSome(run, ops, n - 1, first), EntrySet(run), SomeEntries(ops, n - 1, first),
               EntryOf(ops[n - 1], first + n - 1));
    }
  }

  lemma {:induction false} SomeEntriesAre(ops: seq<Op>, n: nat, first: nat)
    requires n <= |ops|
    ensures forall e :: e in SomeEntries(ops, n, first) <==> exists i :: 0 <= i < n && e == EntryOf(ops[i], first + i)
  {
    if n > 0 {
      SomeEntriesAre(ops, n - 1, first);
      assert EntryOf(ops[n - 1], first + (n - 1)) == EntryOf(ops[n - 1], first + n - 1);
    }
  }

  lemma OpEntriesAre(ops: seq<Op>, first: nat)
    ensures forall e :: e in OpEntries(ops, first) <==> exists i :: 0 <= i < |ops| && e == EntryOf(ops[i], first + i)
  {
    SomeEntriesAre(ops, |ops|, first);
  }

  lemma OpEntriesBounds(ops: seq<Op>, first: nat)
    ensures forall e :: e in OpEntries(ops, first) ==> first <= e.key.seqno < first + |ops|
  {
    OpEntriesAre(ops, first);
  }

  lemma AddSomeBounds(run: seq<Entry>, ops: seq<Op>, n: nat, first: nat)
    requires n <= |ops| && forall x :: x in run ==> x.key.seqno < first
    ensures forall x :: x in AddSome(run, ops, n, first) ==> x.key.seqno < first + n
  {
    AddSomeContents(run, ops, n, first);
    SomeEntriesAre(ops, n, first);
    forall x | x in AddSome(run, ops, n, first)
      ensures x.key.seqno < first + n
    {
      assert x in EntrySet(AddSome(run, ops, n, first));
    }
  }

  lemma {:induction false} AddSomeSorted(run: seq<Entry>, ops: seq<Op>, n: nat, first: nat)
    requires n <= |ops| && Sorted(run) && forall x :: x in run ==> x.key.seqno < first
    ensures Sorted(AddSome(run, ops, n, first))
  {
    if n > 0 {
      AddSomeSorted(run, ops, n - 1, first);
      AddSomeBounds(run, ops, n - 1, first);
      AddEntrySorted(AddSome(run, ops, n - 1, first), EntryOf(ops[n - 1], first + n - 1));
    }
  }

  lemma WriteKeepsInv(db: Db, ops: seq<Op>)
    requires db.Inv() && Allowed(db, Write(ops))
    ensures Apply(db, Write(ops)).Inv()
    ensures Apply(db, Write(ops)).Contents() == db.Contents() + OpEntries(ops, db.lastSequence + 1)
  {
    hide Apply, Allowed, Db.Contents, AddSome;
    WriteIs(db, ops);
    MemBounded(db);
    AddSomeSorted(db.mem, ops, |ops|, db.lastSequence + 1);
    AddSomeContents(db.mem, ops, |ops|, db.lastSequence + 1);
    OpEntriesBounds(ops, db.lastSequence + 1);
    MemGrows(db, Apply(db, Write(ops)), OpEntries(ops, db.lastSequence + 1));
  }

  lemma WriteIs(db: Db, ops: seq<Op>)
    requires Allowed(db, Write(ops))
    ensures db.lastSequence + |ops| < MAX_SEQUENCE
    ensures Apply(db, Write(ops))
            == db.(mem := AddSome(db.mem, ops, |ops|, db.lastSequence + 1), lastSequence := db.lastSequence + |ops|)
  {
    hide AddSome;
  }

  /** The memtable grows by new entries. */
  lemma MemGrows(db: Db, after: Db, added: set<Entry>)
    requires db.Inv() && after == db.(mem := after.mem, lastSequence := after.lastSequence)
    requires Sorted(after.mem) && EntrySet(after.mem) == EntrySet(db.mem) + added
    requires db.lastSequence <= after.lastSequence < MAX_SEQUENCE
    requires forall e :: e in added ==> db.lastSequence < e.key.seqno <= after.lastSequence
    ensures after.Inv()
    ensures after.Contents() == db.Contents() + added
  {
    assert after.Contents() == db.Contents() + added;
    SequencesBounded(db);
    NewestOnTop(db.mem, db.Imm(), db.levels, added, after.mem, db.lastSequence);
  }

  lemma SequencesBounded(db: Db)
    requires db.Inv()
    ensures forall e :: e in db.Contents() ==> e.key.seqno <= db.lastSequence
  {
  }

  /** New entries in the memtable keep it newer than everything below. */
  lemma NewestOnTop(mem: seq<Entry>, imm: seq<Entry>, levels: seq<seq<Table>>, added: set<Entry>, mem2: seq<Entry>,
                    last: nat)
    requires NewerSet(EntrySet(mem), EntrySet(imm))
    requires NewerSet(EntrySet(mem) + EntrySet(imm), EntriesFrom(levels, 0))
    requires forall e :: e in EntrySet(imm) + EntriesFrom(levels, 0) ==> e.key.seqno <= last
    requires forall e :: e in added ==> e.key.seqno > last
    requires EntrySet(mem2) == EntrySet(mem) + added
    ensures NewerSet(EntrySet(mem2), EntrySet(imm))
    ensures NewerSet(EntrySet(mem2) + EntrySet(imm), EntriesFrom(levels, 0))
  {
  }

  lemma MemBounded(db: Db)
    requires db.SequencesOk()
    ensures forall x :: x in db.mem ==> x.key.seqno <= db.lastSequence
    ensures forall x :: x in db.Imm() ==> x.key.seqno <= db.lastSequence
  {
    forall x | x in db.mem || x in db.Imm()
      ensures x.key.seqno <= db.lastSequence
    {
      assert x in db.Contents();
    }
  }

  // Flushes

  lemma AddedLevel(base: seq<Table>, f: Table)
    requires V.StrictlyOrdered(base) && DistinctNumbers(base) && forall g :: g in base ==> g.number != f.number
    ensures var saved := V.SaveLevel(base, {}, V.InsertAll([], [f]));
            V.StrictlyOrdered(saved) && HasLevel(saved, base, [], [f])
  {
    assert V.Numbers<seq<Entry>>([]) == {};
    SavedMembers(base, [], [f]);
  }

  /** The version with one more file. */
  ghost predicate HasOneMore(levels: seq<seq<Table>>, level: nat, f: Table, after: seq<seq<Table>>)
    requires level < |levels|
  {
    && |after| == |levels| && HasLevel(after[level], levels[level], [], [f])
    && V.StrictlyOrdered(after[level]) && after == levels[level := after[level]]
  }

  ghost predicate FlushOk(levels: seq<seq<Table>>, level: nat, f: Table) {
    && VersionOk(levels) && UniqueNumbers(levels) && LevelsOrdered(levels)
    && TableOk(f) && FlushLevelOk(levels, f.contents, level)
    && NewerSet(EntrySet(f.contents), EntriesFrom(levels, 0))
    && forall l, g :: 0 <= l < |levels| && g in levels[l] ==> g.number < f.number
  }

  lemma FlushedIsNewer(levels: seq<seq<Table>>, level: nat, f: Table, l: nat, g: Table)
    requires FlushOk(levels, level, f) && l < |levels| && g in levels[l]
    ensures Newer(f.contents, g.contents)
    ensures level > 0 && l <= level ==> Newer(g.contents, f.contents) && Apart(f, g)
  {
    forall x, y | x in f.contents && y in g.contents && x.key.user == y.key.user
      ensures x.key.seqno > y.key.seqno
    {
      assert x in EntrySet(f.contents) && y in EntriesFrom(levels, 0);
    }
    if level > 0 && l <= level {
      assert NoneOverlaps(levels[l], f.contents);
      FileFacts(levels, l, g);
      WithinRange(f);
      WithinRange(g);
    }
  }

  lemma FlushKeepsAge(levels: seq<seq<Table>>, level: nat, f: Table, after: seq<seq<Table>>, i: nat, j: nat)
    requires FlushOk(levels, level, f) && HasOneMore(levels, level, f, after) && i < j < |levels|
    ensures LevelNewer(after[i], after[j])
  {
    forall g, h | g in after[i] && h in after[j]
      ensures Newer(g.contents, h.contents)
    {
      if g in levels[i] && h in levels[j] {
        AgeFacts(levels, i, j, g, h);
      } else if g in levels[i] {
        FlushedIsNewer(levels, level, f, i, g);
      } else {
        FlushedIsNewer(levels, level, f, j, h);
      }
    }
  }

  lemma FlushKeepsLevel(levels: seq<seq<Table>>, level: nat, f: Table, after: seq<seq<Table>>)
    requires FlushOk(levels, level, f) && HasOneMore(levels, level, f, after)
    ensures TablesOk(after[level]) && (level > 0 ==> LevelSorted(after[level]))
    ensures level == 0 ==> NumberedByAge(after[level])
    ensures DistinctNumbers(after[level])
  {
    assert TablesOk(levels[level]) && DistinctNumbers(levels[level]);
    assert level > 0 ==> LevelSorted(levels[level]);
    forall g | g in levels[level]
      ensures Newer(f.contents, g.contents) && g.number < f.number && (level > 0 ==> Apart(f, g))
    {
      FlushedIsNewer(levels, level, f, level, g);
    }
    LevelWithNewFile(levels[level], f, after[level], level > 0);
  }

  lemma LevelWithNewFile(base: seq<Table>, f: Table, after: seq<Table>, sorted: bool)
    requires TablesOk(base) && DistinctNumbers(base) && TableOk(f)
    requires HasLevel(after, base, [], [f]) && V.StrictlyOrdered(after)
    requires forall g :: g in base ==> Newer(f.contents, g.contents) && g.number < f.number && (sorted ==> Apart(f, g))
    ensures TablesOk(after) && DistinctNumbers(after)
    ensures NumberedByAge(base) ==> NumberedByAge(after)
    ensures sorted && LevelSorted(base) ==> LevelSorted(after)
  {
    if sorted && LevelSorted(base) {
      forall g, h | g in after && h in after && g != h
        ensures Apart(g, h)
      {
        if g != f && h != f { LevelApart(base, g, h); }
      }
      ApartIsSorted(after);
    }
  }

  lemma FlushKeepsNumbers(levels: seq<seq<Table>>, level: nat, f: Table, after: seq<seq<Table>>)
    requires FlushOk(levels, level, f) && HasOneMore(levels, level, f, after) && DistinctNumbers(after[level])
    ensures UniqueNumbers(after)
  {
    forall l | 0 <= l < |after|
      ensures DistinctNumbers(after[l])
    {
      assert DistinctNumbers(levels[l]);
    }
    forall i, j | 0 <= i < j < |after|
      ensures DisjointNumbers(after[i], after[j])
    {
      assert DisjointNumbers(levels[i], levels[j]);
    }
  }

  lemma FlushKeepsVersion(levels: seq<seq<Table>>, level: nat, f: Table)
    requires FlushOk(levels, level, f)
    ensures var after := Added(levels, level, f);
            VersionOk(after) && UniqueNumbers(after) && LevelsOrdered(after) && HasOneMore(levels, level, f, after)
  {
    var after := Added(levels, level, f);
    assert V.StrictlyOrdered(levels[level]) && DistinctNumbers(levels[level]);
    AddedLevel(levels[level], f);
    assert HasOneMore(levels, level, f, after);
    FlushKeepsLevel(levels, level, f, after);
    FlushKeepsNumbers(levels, level, f, after);
    forall l | 0 <= l < |after|
      ensures TablesOk(after[l]) && V.StrictlyOrdered(after[l]) && (l > 0 ==> LevelSorted(after[l]))
    {
      assert TablesOk(levels[l]) && V.StrictlyOrdered(levels[l]) && (l > 0 ==> LevelSorted(levels[l]));
    }
    forall i, j | 0 <= i < j < |after|
      ensures LevelNewer(after[i], after[j])
    {
      FlushKeepsAge(levels, level, f, after, i, j);
    }
  }

  lemma OneMoreContents(levels: seq<seq<Table>>, level: nat, f: Table, after: seq<seq<Table>>)
    requires level < |levels| && HasOneMore(levels, level, f, after)
    ensures EntriesFrom(after, 0) == EntriesFrom(levels, 0) + EntrySet(f.contents)
  {
    forall e
      ensures e in EntriesFrom(after, 0) <==> e in EntriesFrom(levels, 0) + EntrySet(f.contents)
    {
      if e in EntriesFrom(after, 0) {
        InVersion(after, e);
        var l, g := WitnessOf(after, [], e);
        assert g in levels[l] || g == f;
      }
      if e in EntriesFrom(levels, 0) {
        InVersion(levels, e);
        var l, g := WitnessOf(levels, [], e);
        assert g in after[l];
      }
      if e in f.contents { assert f in after[level]; }
    }
  }

  // Compactions

  lemma {:induction false} SurvivorsSorted(m: Merge, n: nat)
    requires n <= |m.input| && Sorted(m.input)
    ensures Sorted(Survivors(m.c.levels, m.c.level, m.input, n, m.oldest))
  {
    if n > 0 {
      var rest := Survivors(m.c.levels, m.c.level, m.input, n - 1, m.oldest);
      SurvivorsSorted(m, n - 1);
      forall k | 0 <= k < |rest|
        ensures Precedes(rest[k].key, m.input[n - 1].key)
      {
        SurvivorsAre(m.c.levels, m.c.level, m.input, n - 1, m.oldest, rest[k]);
      }
    }
  }

  lemma {:induction false} FlattenMembers(runs: seq<seq<Entry>>, e: Entry)
    ensures e in Flatten(runs) <==> exists i :: 0 <= i < |runs| && e in runs[i]
  {
    if runs != [] {
      FlattenMembers(runs[..|runs| - 1], e);
    }
  }

  lemma SplitSorted(front: seq<Entry>, last: seq<Entry>)
    requires Sorted(front + last)
    ensures Sorted(front) && Sorted(last)
    ensures forall x, y :: x in front && y in last ==> Precedes(x.key, y.key)
  {
    var all := front + last;
    assert forall i :: 0 <= i < |front| ==> front[i] == all[i];
    assert forall i :: 0 <= i < |last| ==> last[i] == all[|front| + i];
    forall x, y | x in front && y in last
      ensures Precedes(x.key, y.key)
    {
      var a :| 0 <= a < |front| && front[a] == x;
      var b :| 0 <= b < |last| && last[b] == y;
    }
  }

  /** Every run is sorted, and comes before the later runs. */
  ghost predicate RunsInOrder(runs: seq<seq<Entry>>) {
    && (forall i :: 0 <= i < |runs| ==> Sorted(runs[i]))
    && forall i, j, x, y :: 0 <= i < j < |runs| && x in runs[i] && y in runs[j] ==> Precedes(x.key, y.key)
  }

  /** The pieces of a sorted run are sorted and in order. */
  lemma {:induction false} PiecesSorted(runs: seq<seq<Entry>>)
    requires Sorted(Flatten(runs))
    ensures RunsInOrder(runs)
  {
    if runs != [] {
      var rest, last := runs[..|runs| - 1], runs[|runs| - 1];
      SplitSorted(Flatten(rest), last);
      PiecesSorted(rest);
      forall i, x: Entry, y: Entry | 0 <= i < |rest| && x in rest[i] && y in last
        ensures Precedes(x.key, y.key)
      {
        FlattenMembers(rest, x);
      }
      AppendInOrder(rest, last);
      assert runs == rest + [last];
    }
  }

  lemma AppendInOrder(rest: seq<seq<Entry>>, last: seq<Entry>)
    requires RunsInOrder(rest) && Sorted(last)
    requires forall i, x, y :: 0 <= i < |rest| && x in rest[i] && y in last ==> Precedes(x.key, y.key)
    ensures RunsInOrder(rest + [last])
  {
  }

  lemma RunsMembers(files: seq<Table>, e: Entry)
    ensures e in EntriesIn(files) <==> e in Flatten(Runs(files))
  {
    var runs := Runs(files);
    FlattenMembers(runs, e);
    if e in EntriesIn(files) {
      var f :| f in files && e in f.contents;
      var i :| 0 <= i < |files| && files[i] == f;
      assert e in runs[i];
    }
    if i :| 0 <= i < |runs| && e in runs[i] {
      assert files[i] in files;
    }
  }

  lemma OutputEntries(db: Db, m: Merge, outputs: seq<Table>)
    requires OutputsFor(db, m, outputs)
    ensures EntriesIn(outputs) == EntrySet(m.Kept())
    ensures forall e :: e in EntriesIn(outputs) ==> e in m.input
  {
    forall e
      ensures e in EntriesIn(outputs) <==> e in EntrySet(m.Kept())
      ensures e in m.Kept() ==> e in m.input
    {
      RunsMembers(outputs, e);
      SurvivorsAre(m.c.levels, m.c.level, m.input, |m.input|, m.oldest, e);
    }
  }

  lemma OutputTables(db: Db, m: Merge, outputs: seq<Table>)
    requires m.Valid() && OutputsFor(db, m, outputs)
    requires forall e :: e in m.input ==> e.key.seqno <= MAX_SEQUENCE
    ensures TablesOk(outputs) && LevelSorted(outputs)
  {
    SurvivorsSorted(m, |m.input|);
    var runs := Runs(outputs);
    PiecesSorted(runs);
    OutputEntries(db, m, outputs);
    forall f | f in outputs
      ensures TableOk(f)
    {
      var i :| 0 <= i < |outputs| && outputs[i] == f;
      assert Sorted(runs[i]);
      forall e | e in f.contents
        ensures e.key.seqno <= MAX_SEQUENCE
      {
        assert e in EntriesIn(outputs);
      }
    }
    forall i, j | 0 <= i < j < |outputs|
      ensures Precedes(outputs[i].largest, outputs[j].smallest)
    {
      var f, g := outputs[i].contents, outputs[j].contents;
      assert f[|f| - 1] in runs[i] && g[0] in runs[j];
    }
  }

  lemma OutputNumbers(db: Db, m: Merge, outputs: seq<Table>)
    requires OutputsFor(db, m, outputs)
    ensures DistinctNumbers(outputs)
    ensures forall o :: o in outputs ==> db.nextFileNumber <= o.number < db.nextFileNumber + |outputs|
  {
    forall o | o in outputs
      ensures exists i :: 0 <= i < |outputs| && outputs[i] == o && o.number == db.nextFileNumber + i
    {
      var i :| 0 <= i < |outputs| && outputs[i] == o;
    }
  }

  lemma CompactOutputsOk(db: Db, step: Step)
    requires db.Inv() && step.Compact? && Allowed(db, step)
    ensures OutputsOk(MergeOf(db, step).c, step.outputs)
    ensures EntriesIn(step.outputs) == EntrySet(MergeOf(db, step).Kept())
  {
    var m := MergeOf(db, step);
    InputsInVersion(m.c);
    forall e | e in m.input
      ensures e.key.seqno <= MAX_SEQUENCE && e in EntriesIn(m.c.Inputs())
    {
      assert e in EntrySet(m.input) && e in db.Contents();
    }
    OutputTables(db, m, step.outputs);
    OutputEntries(db, m, step.outputs);
    OutputNumbers(db, m, step.outputs);
    forall o, e | o in step.outputs && e in o.contents
      ensures e in EntriesIn(m.c.Inputs())
    {
      assert e in EntriesIn(step.outputs);
    }
  }

  /** What is left of the invariant once the version is known to be in order. */
  ghost predicate Shrunk(db: Db, levels: seq<seq<Table>>, next: nat) {
    && VersionOk(levels) && UniqueNumbers(levels) && LevelsOrdered(levels)
    && EntriesFrom(levels, 0) <= EntriesFrom(db.levels, 0)
    && forall l, f :: 0 <= l < |levels| && f in levels[l] ==> f.number < next
  }

  lemma ShrinkKeepsInv(db: Db, levels: seq<seq<Table>>, next: nat)
    requires db.Inv() && Shrunk(db, levels, next)
    ensures db.(levels := levels, nextFileNumber := next).Inv()
  {
    var after := db.(levels := levels, nextFileNumber := next);
    assert after.Contents() <= db.Contents();
  }

  lemma CompactKeepsInv(db: Db, step: Step)
    requires db.Inv() && step.Compact? && Allowed(db, step)
    ensures Apply(db, step).Inv()
  {
    hide Db.Inv, OutputsFor, OutputsOk, Merge.Valid, IsCompaction, Rewritten, Survivors, EntriesIn;
    CompactOutputsOk(db, step);
    ResultKeepsInv(db, MergeOf(db, step), step.outputs);
  }

  lemma ResultKeepsInv(db: Db, m: Merge, outputs: seq<Table>)
    requires db.Inv() && m.Valid() && m.c.levels == db.levels && OutputsFor(db, m, outputs)
    requires OutputsOk(m.c, outputs) && EntriesIn(outputs) == EntrySet(m.Kept())
    ensures db.(levels := Rewritten(m.c, outputs), nextFileNumber := db.nextFileNumber + |outputs|).Inv()
  {
    hide Db.Inv, OutputsFor, OutputsOk, Shrunk;
    ResultLevelsOk(db, m, outputs);
    ShrinkKeepsInv(db, Rewritten(m.c, outputs), db.nextFileNumber + |outputs|);
  }

  lemma ResultLevelsOk(db: Db, m: Merge, outputs: seq<Table>)
    requires db.Inv() && m.Valid() && m.c.levels == db.levels && OutputsFor(db, m, outputs)
    requires OutputsOk(m.c, outputs) && EntriesIn(outputs) == EntrySet(m.Kept())
    ensures Shrunk(db, Rewritten(m.c, outputs), db.nextFileNumber + |outputs|)
  {
    RewriteKeepsVersion(m.c, outputs);
    ResultShrinks(m, outputs);
    CompactNumbers(db, m, outputs);
  }

  lemma CompactNumbers(db: Db, m: Merge, outputs: seq<Table>)
    requires db.Inv() && OutputsFor(db, m, outputs) && IsCompaction(m.c) && OutputsOk(m.c, outputs)
    requires m.c.levels == db.levels
    ensures forall l, f :: 0 <= l < |db.levels| && f in Rewritten(m.c, outputs)[l] ==>
      f.number < db.nextFileNumber + |outputs|
  {
    RewriteKeepsVersion(m.c, outputs);
    OutputNumbers(db, m, outputs);
    var levels := Rewritten(m.c, outputs);
    forall l: nat, f: Table | l < |levels| && f in levels[l]
      ensures f.number < db.nextFileNumber + |outputs|
    {
      OldOrOutput(m.c, outputs, levels, l, f);
    }
  }

  lemma ResultShrinks(m: Merge, outputs: seq<Table>)
    requires m.Valid() && OutputsOk(m.c, outputs) && EntriesIn(outputs) == EntrySet(m.Kept())
    ensures EntriesFrom(Rewritten(m.c, outputs), 0) <= EntriesFrom(m.c.levels, 0)
  {
    RewriteKeepsVersion(m.c, outputs);
    InputsAreFiles(m.c);
    InputsInVersion(m.c);
    assert EntriesIn(outputs) <= EntriesIn(m.c.Inputs());
    forall e | e in EntriesFrom(Rewritten(m.c, outputs), 0)
      ensures e in EntriesFrom(m.c.levels, 0)
    {
      RewrittenHolds(m.c, outputs, Rewritten(m.c, outputs), e);
    }
  }

  lemma RewrittenHolds(c: Job, outputs: seq<Table>, after: seq<seq<Table>>, e: Entry)
    requires UniqueNumbers(c.levels) && c.level + 1 < |c.levels| && HasFiles(c, outputs, after)
    requires forall g :: g in c.inputs0 ==> g in c.levels[c.level]
    requires forall g :: g in c.inputs1 ==> g in c.levels[c.level + 1]
    requires e in EntriesFrom(after, 0)
    requires EntriesIn(c.Inputs()) <= EntriesFrom(c.levels, 0) && EntriesIn(outputs) <= EntriesIn(c.Inputs())
    ensures e in EntriesFrom(c.levels, 0)
  {
    ContentsAfter(c, outputs, after, e);
    if !(e in EntriesIn(outputs)) {
      LeftOutInVersion(c.levels, c.Inputs(), e);
    }
  }

  // Trivial moves

  lemma LevelsOfVersion(c: Job)
    requires IsCompaction(c)
    ensures |c.levels| == NUM_LEVELS && c.level + 1 < NUM_LEVELS
  {
  }

  lemma MoveIsRewrite(db: Db, level: nat, f: Table)
    requires db.Inv() && Allowed(db, TrivialMove(level, f))
    ensures OutputsOk(Job(db.levels, level, [f], []), [f])
  {
    hide Db.Inv, Inputs.ChosenInputs, Inputs.NextLevelInputs, VersionOk, UniqueNumbers, LevelsOrdered;
    var c := Job(db.levels, level, [f], []);
    LevelsOfVersion(c);
    InputsAreFiles(c);
    assert f in db.levels[level];
    FileFacts(db.levels, level, f);
    assert f in c.Inputs();
    forall l, g | 0 <= l < |db.levels| && g in db.levels[l] && g.number == f.number
      ensures l == level && g == f
    {
      NumberFacts(db.levels, l, level, g, f);
    }
  }

  lemma MoveKeepsContents(db: Db, level: nat, f: Table)
    requires db.Inv() && Allowed(db, TrivialMove(level, f))
    ensures EntriesFrom(Apply(db, TrivialMove(level, f)).levels, 0) == EntriesFrom(db.levels, 0)
  {
    var c := Job(db.levels, level, [f], []);
    var after := Rewritten(c, [f]);
    MoveIsRewrite(db, level, f);
    RewriteKeepsVersion(c, [f]);
    InputsAreFiles(c);
    assert f in c.inputs0 && f in db.levels[level] && c.Inputs() == [f] + [];
    hide Db.Inv, OutputsOk, Rewritten, EntriesFrom, EntriesIn, LeftOut, HasFiles;
    forall e
      ensures e in EntriesFrom(after, 0) <==> e in EntriesFrom(db.levels, 0)
    {
      ContentsAfter(c, [f], after, e);
      InVersion(db.levels, e);
      LeftOutOrMoved(db.levels, level, f, e);
    }
  }

  lemma LeftOutOrMoved(levels: seq<seq<Table>>, level: nat, f: Table, e: Entry)
    requires level < |levels| && f in levels[level]
    ensures LeftOut(levels, [], e) <==> e in EntriesIn([f]) || LeftOut(levels, [f] + [], e)
  {
    if LeftOut(levels, [], e) {
      var l, g := WitnessOf(levels, [], e);
      if g != f { assert g !in [f] + []; }
    }
    if LeftOut(levels, [f] + [], e) {
      var l, g := WitnessOf(levels, [f] + [], e);
      assert g !in [];
    }
    if e in EntriesIn([f]) {
      assert f !in [] && e in f.contents;
    }
  }

  lemma MoveKeepsInv(db: Db, level: nat, f: Table)
    requires db.Inv() && Allowed(db, TrivialMove(level, f))
    ensures Apply(db, TrivialMove(level, f)).Inv()
  {
    var c := Job(db.levels, level, [f], []);
    var after := Rewritten(c, [f]);
    MoveIsRewrite(db, level, f);
    RewriteKeepsVersion(c, [f]);
    MoveKeepsContents(db, level, f);
    InputsAreFiles(c);
    assert f in c.inputs0 && f in db.levels[level];
    assert db.NumbersOk();
    hide Db.Inv, IsCompaction, OutputsOk, Rewritten, EntriesFrom, VersionOk, UniqueNumbers, LevelsOrdered, HasFiles;
    forall l: nat, g: Table | l < |after| && g in after[l]
      ensures g.number < db.nextFileNumber
    {
      OldOrOutput(c, [f], after, l, g);
      assert f in db.levels[level];
    }
    ShrinkKeepsInv(db, after, db.nextFileNumber);
  }

  // Flushes of the whole database

  lemma FlushIsOk(db: Db, level: nat, size: nat)
    requires db.Inv() && Allowed(db, Flush(level, size)) && db.imm.value != []
    ensures FlushOk(db.levels, level, TableOf(db.imm.value, db.nextFileNumber, size))
  {
    var f := TableOf(db.imm.value, db.nextFileNumber, size);
    MemBounded(db);
    assert TableOk(f);
    assert NewerSet(EntrySet(f.contents), EntriesFrom(db.levels, 0));
  }

  lemma FlushKeepsInv(db: Db, level: nat, size: nat)
    requires db.Inv() && Allowed(db, Flush(level, size))
    ensures Apply(db, Flush(level, size)).Inv()
    ensures Apply(db, Flush(level, size)).Contents() == db.Contents()
  {
    var after := Apply(db, Flush(level, size));
    if db.imm.value == [] {
      assert after.Contents() == db.Contents();
    } else {
      var f := TableOf(db.imm.value, db.nextFileNumber, size);
      FlushIsOk(db, level, size);
      FlushKeepsVersion(db.levels, level, f);
      OneMoreContents(db.levels, level, f, after.levels);
      assert after.Contents() == db.Contents();
      FlushedNumbers(db, level, f, after.levels);
    }
  }

  lemma FlushedNumbers(db: Db, level: nat, f: Table, after: seq<seq<Table>>)
    requires db.NumbersOk() && level < |db.levels| && HasOneMore(db.levels, level, f, after)
    requires f.number == db.nextFileNumber
    ensures forall l, g :: 0 <= l < |after| && g in after[l] ==> g.number < db.nextFileNumber + 1
  {
    forall l: nat, g: Table | l < |after| && g in after[l]
      ensures g.number < db.nextFileNumber + 1
    {
      assert g in db.levels[l] || g == f;
    }
  }

  // All steps

  lemma OthersKeepInv(db: Db, step: Step)
    requires db.Inv() && Allowed(db, step) && (step.SwitchMemTable? || step.GetSnapshot? || step.ReleaseSnapshot?)
    ensures Apply(db, step).Inv()
  {
    assert Apply(db, step).Contents() == db.Contents();
  }

  /** Every step the engine may take keeps the database in order. */
  lemma StepKeepsInv(db: Db, step: Step)
    requires db.Inv() && Allowed(db, step)
    ensures Apply(db, step).Inv()
  {
    hide Db.Inv, Allowed, Apply;
    match step
    case Write(ops) => WriteKeepsInv(db, ops);
    case Flush(level, size) => FlushKeepsInv(db, level, size);
    case TrivialMove(level, f) => MoveKeepsInv(db, level, f);
    case Compact(_, _, _, _, _) => CompactKeepsInv(db, step);
    case _ => OthersKeepInv(db, step);
  }
}
