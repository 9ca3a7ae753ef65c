/**
 * The manifest that a run of the database writes, one edit for every flush, move and compaction, and what recovery
 * makes of it (db/version_set.cc, LogAndApply and Recover).
 */
module DatabaseManifest {
  import opened Wrappers
  import opened InternalKeys
  import opened Files
  import opened Compactions
  import opened Lookup
  import opened Rewrites
  import opened CompactionReads
  import opened KeyCoding
  import opened Logs
  import opened LogReading
  import opened ManifestCodec
  import opened ManifestRecovery
  import opened Database
  import opened DatabaseInvariant
  import opened DatabaseReads
  import opened DatabaseEdits
  import M = Manifests
  import V = Versions

  // What a manifest knows of a table: all but its contents

  function Bare(f: Table): FileMetaData { File(f.number, f.size, f.smallest, f.largest, ()) }

  function BareFiles(files: seq<Table>): (r: seq<FileMetaData>)
    ensures |r| == |files|
  {
    seq(|files|, i requires 0 <= i < |files| => Bare(files[i]))
  }

  function BareNew(newFiles: seq<(nat, Table)>): (r: seq<(nat, FileMetaData)>)
    ensures |r| == |newFiles|
  {
    seq(|newFiles|, i requires 0 <= i < |newFiles| => (newFiles[i].0, Bare(newFiles[i].1)))
  }

  function BareEdit(e: TableEdit): Edit {
    V.VersionEdit(e.comparator, e.logNumber, e.prevLogNumber, e.nextFileNumber, e.lastSequence, e.compactPointers,
                  e.deletedFiles, BareNew(e.newFiles))
  }

  function BareLevels(levels: seq<seq<Table>>): (r: seq<Level>)
    ensures |r| == |levels|
  {
    seq(|levels|, l requires 0 <= l < |levels| => BareFiles(levels[l]))
  }

  // A builder treats both alike

  lemma BareJoins(a: seq<Table>, b: seq<Table>)
    ensures BareFiles(a + b) == BareFiles(a) + BareFiles(b)
  {
  }

  lemma BareTail(files: seq<Table>)
    requires files != []
    ensures BareFiles(files) == [Bare(files[0])] + BareFiles(files[1..]) && BareFiles(files)[1..] == BareFiles(files[1..])
    ensures BareFiles(files)[..|files| - 1] == BareFiles(files[..|files| - 1])
  {
  }

  lemma {:induction false} BareInsert(added: seq<Table>, f: Table)
    ensures V.Insert(BareFiles(added), Bare(f)) == BareFiles(V.Insert(added, f))
  {
    if added != [] {
      BareTail(added);
      BareInsert(added[1..], f);
      BareJoins([f], added);
      BareJoins([added[0]], V.Insert(added[1..], f));
    }
  }

  lemma {:induction false} BareInsertAll(added: seq<Table>, files: seq<Table>)
    ensures V.InsertAll(BareFiles(added), BareFiles(files)) == BareFiles(V.InsertAll(added, files))
  {
    if files != [] {
      BareTail(files);
      BareInsertAll(added, files[..|files| - 1]);
      BareInsert(V.InsertAll(added, files[..|files| - 1]), files[|files| - 1]);
    }
  }

  lemma {:induction false} BareMerge(base: seq<Table>, added: seq<Table>)
    ensures V.Merge(BareFiles(base), BareFiles(added)) == BareFiles(V.Merge(base, added))
    decreases |base| + |added|
  {
    if added == [] {
    } else if base != [] && !V.BySmallestKey(added[0], base[0]) {
      BareTail(base);
      BareMerge(base[1..], added);
      BareJoins([base[0]], V.Merge(base[1..], added));
    } else {
      BareTail(added);
      BareMerge(base, added[1..]);
      BareJoins([added[0]], V.Merge(base, added[1..]));
    }
  }

  lemma {:induction false} BareKeep(files: seq<Table>, deleted: set<nat>)
    ensures V.Keep(BareFiles(files), deleted) == BareFiles(V.Keep(files, deleted))
  {
    if files != [] {
      BareTail(files);
      BareKeep(files[1..], deleted);
      BareJoins(if files[0].number in deleted then [] else [files[0]], V.Keep(files[1..], deleted));
    }
  }

  lemma {:induction false} BareNewAt(newFiles: seq<(nat, Table)>, level: nat)
    ensures V.NewAt(BareNew(newFiles), level) == BareFiles(V.NewAt(newFiles, level))
  {
    if newFiles != [] {
      var last := newFiles[|newFiles| - 1];
      BareNewAt(newFiles[..|newFiles| - 1], level);
      assert BareNew(newFiles)[..|newFiles| - 1] == BareNew(newFiles[..|newFiles| - 1]);
      BareJoins(V.NewAt(newFiles[..|newFiles| - 1], level), if last.0 == level then [last.1] else []);
    }
  }

  lemma BareNumbers(files: seq<Table>)
    ensures V.Numbers(BareFiles(files)) == V.Numbers(files)
  {
    assert forall i :: 0 <= i < |files| ==> BareFiles(files)[i].number == files[i].number;
  }

  lemma BareApplied(files: seq<Table>, e: TableEdit, level: nat)
    ensures M.Applied(BareFiles(files), BareEdit(e), level) == BareFiles(M.Applied(files, e, level))
  {
    hide V.Keep, V.Merge, V.InsertAll, V.NewAt, V.Numbers, BareFiles;
    var more := V.NewAt(e.newFiles, level);
    BareNewAt(e.newFiles, level);
    BareNumbers(more);
    assert BareFiles([]) == [] by { NoneBare(); }
    BareInsertAll([], more);
    var s := V.ApplyToLevel(M.NoFiles<seq<Entry>>(), e, level);
    BareMerge(files, s.added);
    BareKeep(V.Merge(files, s.added), s.deleted);
  }

  lemma NoneBare()
    ensures BareFiles([]) == []
  {
  }

  lemma BareOf(files: seq<Table>, b: FileMetaData) returns (f: Table)
    requires b in BareFiles(files)
    ensures f in files && Bare(f) == b
  {
    var i :| 0 <= i < |files| && BareFiles(files)[i] == b;
    f := files[i];
  }

  // The edits of steps

  predicate ChangesFiles(step: Step) { step.Flush? || step.TrivialMove? || step.Compact? }

  /** The files of an edit are those of a flush, a move or a compaction. */
  ghost predicate FilesOfStep(e: TableEdit, db: Db, step: Step)
    requires Allowed(db, step)
  {
    match step
    case Flush(level, size) =>
      && e.deletedFiles == []
      && e.newFiles ==
         if db.imm.value == [] then [] else [(level, TableOf(db.imm.value, db.nextFileNumber, size))]
    case TrivialMove(level, f) => IsCompactionEdit(e, level, [f], [], [f])
    case Compact(level, inputs0, inputs1, _, outputs) => IsCompactionEdit(e, level, inputs0, inputs1, outputs)
    case _ => false
  }

  /** The numbers of the database are in the edit. */
  ghost predicate CarriesNumbersOf(e: TableEdit, db: Db) {
    && e.comparator.None? && e.logNumber == Some(db.logs.oldest) && e.prevLogNumber == Some(db.logs.prev)
    && e.nextFileNumber == Some(db.nextFileNumber) && e.lastSequence == Some(db.lastSequence)
  }

  /** What LogAndApply records for a step: its files and, as they are after it, the four numbers. */
  ghost predicate IsEditOf(e: TableEdit, db: Db, step: Step)
    requires Allowed(db, step)
  {
    FilesOfStep(e, db, step) && CarriesNumbersOf(e, Apply(db, step))
  }

  ghost predicate Recorded(edit: Edit, db: Db, step: Step)
    requires Allowed(db, step)
  {
    exists e: TableEdit :: edit == BareEdit(e) && IsEditOf(e, db, step)
  }

  /** A step puts its edit, if it has one, on record. */
  ghost predicate Extends(before: seq<Edit>, after: seq<Edit>, db: Db, step: Step)
    requires Allowed(db, step)
  {
    if !ChangesFiles(step) then after == before
    else |after| == |before| + 1 && after[..|before|] == before && Recorded(after[|before|], db, step)
  }

  /** The edits that a run records. */
  ghost predicate OnRecord(db: Db, steps: seq<Step>, edits: seq<Edit>)
    requires IsRun(db, steps)
    decreases |steps|
  {
    if steps == [] then edits == []
    else if !ChangesFiles(steps[0]) then OnRecord(Apply(db, steps[0]), steps[1..], edits)
    else edits != [] && Recorded(edits[0], db, steps[0]) && OnRecord(Apply(db, steps[0]), steps[1..], edits[1..])
  }

  lemma PutOnRecord(before: seq<Edit>, after: seq<Edit>, db: Db, step: Step, e: TableEdit)
    requires Allowed(db, step) && ChangesFiles(step) && FilesOfStep(e, db, step) && CarriesNumbersOf(e, Apply(db, step))
    requires after == before + [BareEdit(e)]
    ensures Extends(before, after, db, step)
  {
  }

  /** A run whose steps each put their edits on record has them all on record in the end. */
  lemma {:induction false} RecordsExtend(db: Db, steps: seq<Step>, edits: seq<Edit>, step: Step, after: seq<Edit>)
    requires IsRun(db, steps) && OnRecord(db, steps, edits)
    requires Allowed(EndOf(db, steps), step) && Extends(edits, after, EndOf(db, steps), step)
    ensures IsRun(db, steps + [step]) && OnRecord(db, steps + [step], after)
    decreases |steps|
  {
    hide Allowed, Apply, Recorded;
    var all := steps + [step];
    if steps == [] {
      assert all[1..] == [] && IsRun(Apply(db, step), []);
      if ChangesFiles(step) { assert after[1..] == []; }
    } else {
      assert all[1..] == steps[1..] + [step];
      if ChangesFiles(steps[0]) {
        assert ChangesFiles(step) ==> after[1..][..|edits| - 1] == after[..|edits|][1..];
        RecordsExtend(Apply(db, steps[0]), steps[1..], edits[1..], step, after[1..]);
      } else {
        RecordsExtend(Apply(db, steps[0]), steps[1..], edits, step, after);
      }
    }
  }

  /** The builder makes of the version and the edit what the step makes of the version. */
  lemma EditInstalls(db: Db, step: Step, e: TableEdit)
    requires db.Inv() && Allowed(db, step) && ChangesFiles(step) && FilesOfStep(e, db, step)
    ensures Edited(db.levels, e) == Apply(db, step).levels
  {
    hide Db.Inv, Merge.Valid, OutputsFor, IsCompactionEdit, FlushLevelOk, Rewritten, Edited, Added, M.Applied;
    match step
    case Flush(level, size) =>
      if db.imm.value == [] {
        EditAddsNone(db.levels, e);
      } else {
        FlushLevelExists(db.levels, db.imm.value, level);
        EditAddsOne(db.levels, e, level, TableOf(db.imm.value, db.nextFileNumber, size));
      }
    case TrivialMove(level, f) =>
      MoveIsRewrite(db, level, f);
      EditRewrites(Job(db.levels, level, [f], []), e, [f]);
    case Compact(level, inputs0, inputs1, _, outputs) =>
      CompactOutputsOk(db, step);
      MergeIsCompaction(db, step);
      EditRewrites(Job(db.levels, level, inputs0, inputs1), e, outputs);
  }

  lemma FlushLevelExists(levels: seq<seq<Table>>, run: seq<Entry>, level: nat)
    requires run != [] && FlushLevelOk(levels, run, level)
    ensures level < |levels|
  {
  }

  lemma MergeIsCompaction(db: Db, step: Step)
    requires step.Compact? && Allowed(db, step)
    ensures IsCompaction(MergeOf(db, step).c)
  {
  }

  /** The files an edit adds to a level have numbers no file of the level has. */
  lemma NumbersAreNew(db: Db, step: Step, e: TableEdit, l: nat)
    requires db.Inv() && Allowed(db, step) && ChangesFiles(step) && FilesOfStep(e, db, step) && l < |db.levels|
    ensures DisjointNumbers(V.NewAt(e.newFiles, l), db.levels[l])
  {
    hide Db.Inv, Merge.Valid, OutputsFor, Rewritten, Added, IsCompaction, FlushLevelOk;
    NumbersBelow(db, l);
    match step
    case Flush(level, size) =>
      if db.imm.value != [] { AllNewAt(e.newFiles, [e.newFiles[0].1], level, l); }
    case TrivialMove(level, f) =>
      AllNewAt(e.newFiles, [f], level + 1, l);
      if l == level + 1 { MovedIsAbove(db, level, f); }
    case Compact(level, inputs0, inputs1, _, outputs) =>
      AllNewAt(e.newFiles, outputs, level + 1, l);
      OutputNumbers(db, MergeOf(db, step), outputs);
  }

  lemma NumbersBelow(db: Db, l: nat)
    requires db.Inv() && l < |db.levels|
    ensures forall f :: f in db.levels[l] ==> f.number < db.nextFileNumber
  {
  }

  lemma MovedIsAbove(db: Db, level: nat, f: Table)
    requires db.Inv() && Allowed(db, TrivialMove(level, f))
    ensures level + 1 < |db.levels| && f in db.levels[level] && DisjointNumbers([f], db.levels[level + 1])
  {
    hide VersionOk, LevelsOrdered, Db.MemOk, Db.SequencesOk;
    var c := Job(db.levels, level, [f], []);
    assert c.level + 1 < |c.levels| by { LevelsOfVersion(c); }
    InputsAreFiles(c);
    assert f in c.inputs0;
    assert DisjointNumbers(db.levels[level], db.levels[level + 1]);
  }

  // Replaying the edits of a run

  lemma OneEditOn(files: Level, edit: Edit, rest: seq<Edit>, level: nat)
    ensures M.InTurn(files, [edit] + rest, level) == M.InTurn(M.Applied(files, edit, level), rest, level)
    ensures M.AddsOnlyNew(files, edit, level) && M.AllAddOnlyNew(M.Applied(files, edit, level), rest, level) ==>
              M.AllAddOnlyNew(files, [edit] + rest, level)
  {
    hide M.Applied, M.AddsOnlyNew;
    var all := [edit] + rest;
    M.InTurnJoins(files, [edit], rest, level);
    assert [edit][..0] == [];
    assert M.InTurn(files, [edit], level) == M.Applied(M.InTurn(files, [], level), edit, level);
    forall i: nat | 0 < i < |all|
      ensures M.InTurn(files, all[..i], level) == M.InTurn(M.Applied(files, edit, level), rest[..i - 1], level)
    {
      assert all[..i] == [edit] + rest[..i - 1];
      M.InTurnJoins(files, [edit], rest[..i - 1], level);
    }
  }

  lemma StepReplays(db: Db, step: Step, edit: Edit, l: nat)
    requires db.Inv() && Allowed(db, step) && ChangesFiles(step) && Recorded(edit, db, step)
    requires l < |db.levels| == |Apply(db, step).levels|
    ensures M.Applied(BareFiles(db.levels[l]), edit, l) == BareFiles(Apply(db, step).levels[l])
    ensures M.AddsOnlyNew(BareFiles(db.levels[l]), edit, l)
  {
    hide Db.Inv, Allowed, Apply, M.Applied, BareFiles, FilesOfStep, V.NewAt;
    var e: TableEdit :| edit == BareEdit(e) && IsEditOf(e, db, step);
    EditInstalls(db, step, e);
    BareApplied(db.levels[l], e, l);
    NumbersAreNew(db, step, e, l);
    BareNewAt(e.newFiles, l);
    BareApart(V.NewAt(e.newFiles, l), db.levels[l]);
  }

  lemma BareApart(a: seq<Table>, b: seq<Table>)
    requires DisjointNumbers(a, b)
    ensures forall f :: f in BareFiles(a) ==> f !in BareFiles(b)
  {
    forall f, g | f in BareFiles(a) && g in BareFiles(b)
      ensures f.number != g.number
    {
      var x := BareOf(a, f);
      var y := BareOf(b, g);
    }
  }

  lemma LevelsStay(db: Db)
    requires db.Inv()
    ensures |db.levels| == NUM_LEVELS
  {
  }

  lemma {:induction false} RunReplays(db: Db, steps: seq<Step>, edits: seq<Edit>, l: nat)
    requires db.Inv() && IsRun(db, steps) && OnRecord(db, steps, edits) && l < NUM_LEVELS
    ensures |db.levels| == NUM_LEVELS && |EndOf(db, steps).levels| == NUM_LEVELS
    ensures M.InTurn(BareFiles(db.levels[l]), edits, l) == BareFiles(EndOf(db, steps).levels[l])
    ensures M.AllAddOnlyNew(BareFiles(db.levels[l]), edits, l)
    decreases |steps|
  {
    hide Db.Inv, Allowed, Apply, Recorded, BareFiles, M.Applied, M.AddsOnlyNew;
    LevelsStay(db);
    if steps != [] {
      var next := Apply(db, steps[0]);
      StepKeepsInv(db, steps[0]);
      LevelsStay(next);
      if ChangesFiles(steps[0]) {
        RunReplays(next, steps[1..], edits[1..], l);
        StepReplays(db, steps[0], edits[0], l);
        OneEditOn(BareFiles(db.levels[l]), edits[0], edits[1..], l);
        assert [edits[0]] + edits[1..] == edits;
      } else {
        RunReplays(next, steps[1..], edits, l);
        SameFiles(db, steps[0]);
      }
    }
  }

  lemma SameFiles(db: Db, step: Step)
    requires Allowed(db, step) && !ChangesFiles(step)
    ensures Apply(db, step).levels == db.levels
  {
  }

  // A file number stands for one file throughout a run

  ghost predicate OneForEach(files: set<FileMetaData>) {
    forall f, g :: f in files && g in files && f.number == g.number ==> f == g
  }

  function FilesOf(edit: Edit): set<FileMetaData> { set p | p in edit.newFiles :: p.1 }

  function AllFiles(edits: seq<Edit>): set<FileMetaData> {
    if edits == [] then {} else FilesOf(edits[0]) + AllFiles(edits[1..])
  }

  /** The files known so far, among them those of the version, have different numbers, all used up. */
  ghost predicate Known(files: set<FileMetaData>, db: Db) {
    && OneForEach(files) && (forall f :: f in files ==> f.number < db.nextFileNumber)
    && forall l, f :: 0 <= l < |db.levels| && f in db.levels[l] ==> Bare(f) in files
  }

  /** The files an edit adds are known, or have new numbers of their own. */
  lemma NewOrKnown(db: Db, step: Step, e: TableEdit)
    requires db.Inv() && Allowed(db, step) && ChangesFiles(step) && FilesOfStep(e, db, step)
    ensures forall p :: p in e.newFiles ==>
              || (step.TrivialMove? && p.1 == step.f && step.level < |db.levels| && step.f in db.levels[step.level])
              || (!step.TrivialMove? && db.nextFileNumber <= p.1.number < Apply(db, step).nextFileNumber)
    ensures !step.TrivialMove? ==> forall p, q :: p in e.newFiles && q in e.newFiles && p.1.number == q.1.number ==> p == q
    ensures db.nextFileNumber <= Apply(db, step).nextFileNumber
  {
    hide Db.Inv, Merge.Valid, OutputsFor, Rewritten, Added, IsCompaction, FlushLevelOk;
    match step
    case Flush(level, size) =>
    case TrivialMove(level, f) => MovedIsAbove(db, level, f);
    case Compact(level, inputs0, inputs1, _, outputs) =>
      OutputNumbers(db, MergeOf(db, step), outputs);
      forall p | p in e.newFiles
        ensures p.0 == level + 1 && p.1 in outputs
      {
        var k :| 0 <= k < |outputs| && e.newFiles[k] == p;
        assert outputs[k] in outputs;
      }
  }

  /** A file of the next version is one of this version or one the edit adds. */
  lemma StaysOrAdded(db: Db, step: Step, e: TableEdit, l: nat, f: Table)
    requires db.Inv() && Allowed(db, step) && ChangesFiles(step) && FilesOfStep(e, db, step)
    requires l < |Apply(db, step).levels| && f in Apply(db, step).levels[l]
    ensures l < |db.levels| && (f in db.levels[l] || exists p :: p in e.newFiles && p.1 == f)
  {
    hide Db.Inv, Allowed, Apply, M.Applied, FilesOfStep, V.NewAt;
    EditInstalls(db, step, e);
    assert f in M.Applied(db.levels[l], e, l);
    AppliedMembers(db.levels[l], e, l, f);
    if f in V.NewAt(e.newFiles, l) { NewIsIn(e.newFiles, l, f); }
  }

  lemma {:induction false} NewIsIn<C(!new)>(newFiles: seq<(nat, File<C>)>, l: nat, f: File<C>)
    requires f in V.NewAt(newFiles, l)
    ensures exists p :: p in newFiles && p.1 == f
  {
    var front, last := newFiles[..|newFiles| - 1], newFiles[|newFiles| - 1];
    if last.0 == l && last.1 == f {
      assert last in newFiles;
    } else {
      NewIsIn(front, l, f);
    }
  }

  lemma AppliedMembers(files: seq<Table>, e: TableEdit, l: nat, f: Table)
    requires f in M.Applied(files, e, l)
    ensures f in files || f in V.NewAt(e.newFiles, l)
  {
    hide V.InsertAll, V.Merge, V.Keep, V.NewAt, V.Numbers;
    var s := V.ApplyToLevel(M.NoFiles<seq<Entry>>(), e, l);
    KeptMember(V.Merge(files, s.added), s.deleted, f);
    MergedMember(files, s.added, f);
    if f in s.added { InsertedMember([], V.NewAt(e.newFiles, l), f); }
  }

  lemma {:induction false} KeptMember(files: seq<Table>, deleted: set<nat>, f: Table)
    requires f in V.Keep(files, deleted)
    ensures f in files
  {
    if f in V.Keep(files[1..], deleted) { KeptMember(files[1..], deleted, f); }
  }

  lemma {:induction false} MergedMember(base: seq<Table>, added: seq<Table>, f: Table)
    requires f in V.Merge(base, added)
    ensures f in base || f in added
    decreases |base| + |added|
  {
    if added == [] {
    } else if base != [] && !V.BySmallestKey(added[0], base[0]) {
      if f != base[0] { MergedMember(base[1..], added, f); }
    } else {
      if f != added[0] { MergedMember(base, added[1..], f); }
    }
  }

  lemma {:induction false} InsertedMember(added: seq<Table>, files: seq<Table>, f: Table)
    requires f in V.InsertAll(added, files)
    ensures f in added || f in files
  {
    if files != [] {
      var front, last := files[..|files| - 1], files[|files| - 1];
      OneInserted(V.InsertAll(added, front), last, f);
      if f != last { InsertedMember(added, front, f); }
    }
  }

  lemma {:induction false} OneInserted(added: seq<Table>, g: Table, f: Table)
    requires f in V.Insert(added, g)
    ensures f in added || f == g
  {
    if added != [] && !V.BySmallestKey(g, added[0]) && V.BySmallestKey(added[0], g) && f != added[0] {
      OneInserted(added[1..], g, f);
    }
  }

  lemma StepKnows(db: Db, step: Step, edit: Edit, files: set<FileMetaData>)
    requires db.Inv() && Allowed(db, step) && ChangesFiles(step) && Recorded(edit, db, step) && Known(files, db)
    ensures Known(files + FilesOf(edit), Apply(db, step))
  {
    hide Db.Inv, Allowed, Apply, FilesOfStep;
    var e: TableEdit :| edit == BareEdit(e) && IsEditOf(e, db, step);
    var next := Apply(db, step);
    NewOrKnown(db, step, e);
    forall f | f in FilesOf(edit)
      ensures exists p :: p in e.newFiles && f == Bare(p.1)
    {
      var q :| q in edit.newFiles && q.1 == f;
      var i :| 0 <= i < |edit.newFiles| && edit.newFiles[i] == q;
      assert e.newFiles[i] in e.newFiles;
    }
    forall l, f | 0 <= l < |next.levels| && f in next.levels[l]
      ensures Bare(f) in files + FilesOf(edit)
    {
      StaysOrAdded(db, step, e, l, f);
      if f !in db.levels[l] {
        var p :| p in e.newFiles && p.1 == f;
        var i :| 0 <= i < |e.newFiles| && e.newFiles[i] == p;
        assert edit.newFiles[i] in edit.newFiles && edit.newFiles[i].1 == Bare(f);
      }
    }
  }

  lemma {:induction false} RunKnows(db: Db, steps: seq<Step>, edits: seq<Edit>, files: set<FileMetaData>)
    requires db.Inv() && IsRun(db, steps) && OnRecord(db, steps, edits) && Known(files, db)
    ensures OneForEach(files + AllFiles(edits))
    decreases |steps|
  {
    hide Db.Inv, Allowed, Apply, Recorded, FilesOf;
    if steps == [] {
      assert files + {} == files;
    } else {
      var next := Apply(db, steps[0]);
      StepKeepsInv(db, steps[0]);
      if ChangesFiles(steps[0]) {
        StepKnows(db, steps[0], edits[0], files);
        RunKnows(next, steps[1..], edits[1..], files + FilesOf(edits[0]));
        assert files + FilesOf(edits[0]) + AllFiles(edits[1..]) == files + AllFiles(edits);
      } else {
        SameFiles(db, steps[0]);
        FileNumbersGrow(db, steps[0]);
        RunKnows(next, steps[1..], edits, files);
      }
    }
  }

  lemma FileNumbersGrow(db: Db, step: Step)
    requires Allowed(db, step)
    ensures db.nextFileNumber <= Apply(db, step).nextFileNumber
  {
    hide AddSome, Rewritten, Added;
  }

  // A manifest of a run

  /** The snapshot with which a manifest begins. */
  function SnapshotOf(levels: seq<seq<Table>>, comparator: Bytes, pointers: seq<(nat, InternalKey)>): Edit {
    M.Snapshot(BareLevels(levels), comparator, pointers)
  }

  /**
   * The edit recorded when the database was opened: it adds the tables that were made of the logs to the version that
   * had been recovered, and has the numbers of the database.
   */
  ghost predicate Opens(edit: Edit, levels: seq<seq<Table>>, files: seq<Table>, db: Db) {
    && |levels| == NUM_LEVELS && LevelsOrdered(levels) && UniqueNumbers(levels)
    && M.Named(files) && (forall l :: 0 <= l < NUM_LEVELS ==> DisjointNumbers(files, levels[l]))
    && (forall l, f :: 0 <= l < NUM_LEVELS && f in levels[l] ==> f.number < db.nextFileNumber)
    && (forall f :: f in files ==> f.number < db.nextFileNumber)
    && db.levels == AddedTo(levels, files)
    && exists e: TableEdit :: edit == BareEdit(e) && e.newFiles == AddingEdit(files).newFiles && e.deletedFiles == []
                              && CarriesNumbersOf(e, db)
  }

  lemma OpeningReplays(edit: Edit, levels: seq<seq<Table>>, files: seq<Table>, db: Db, l: nat)
    requires Opens(edit, levels, files, db) && l < NUM_LEVELS
    ensures |db.levels| == NUM_LEVELS && M.Applied(BareFiles(levels[l]), edit, l) == BareFiles(db.levels[l])
    ensures M.AddsOnlyNew(BareFiles(levels[l]), edit, l)
  {
    hide BareFiles, V.NewAt, V.SaveLevel, V.InsertAll, LevelsOrdered, UniqueNumbers, M.Named;
    var e: TableEdit :| edit == BareEdit(e) && e.newFiles == AddingEdit(files).newFiles && e.deletedFiles == []
                        && CarriesNumbersOf(e, db);
    BareApplied(levels[l], e, l);
    BareNewAt(e.newFiles, l);
    AllNewAt(e.newFiles, files, 0, l);
    if l == 0 {
      AddedByEdit(levels[0], files);
      SameEdited(levels, e, AddingEdit(files));
      assert Edited(levels, e)[0] == Edited(levels, AddingEdit(files))[0];
      BareApart(files, levels[0]);
    } else {
      assert V.DeletedAt([], l) == {};
      UntouchedLevel(levels[l], e, l);
      NoneBare();
    }
  }

  lemma {:induction false} SnapshotHas(levels: seq<seq<Table>>, n: nat)
    requires n <= |levels|
    ensures forall p :: p in M.SnapshotFiles(BareLevels(levels), n) <==>
                        exists l, f :: 0 <= l < n && f in levels[l] && p == (l, Bare(f))
  {
    if n > 0 {
      SnapshotHas(levels, n - 1);
      var last := M.FilesAt(n - 1, BareFiles(levels[n - 1]));
      forall p
        ensures p in last <==> exists f :: f in levels[n - 1] && p == (n - 1, Bare(f))
      {
        if p in last {
          var i :| 0 <= i < |last| && last[i] == p;
          assert levels[n - 1][i] in levels[n - 1];
        }
        if f :| f in levels[n - 1] && p == (n - 1, Bare(f)) {
          var i :| 0 <= i < |levels[n - 1]| && levels[n - 1][i] == f;
          assert last[i] == p;
        }
      }
    }
  }

  lemma SnapshotKnows(levels: seq<seq<Table>>, comparator: Bytes, pointers: seq<(nat, InternalKey)>)
    requires UniqueNumbers(levels)
    ensures OneForEach(FilesOf(SnapshotOf(levels, comparator, pointers)))
    ensures forall f :: f in FilesOf(SnapshotOf(levels, comparator, pointers)) <==>
                        exists l, t :: 0 <= l < |levels| && t in levels[l] && f == Bare(t)
  {
    var files := FilesOf(SnapshotOf(levels, comparator, pointers));
    SnapshotHas(levels, |levels|);
    forall l, f | 0 <= l < |levels| && f in levels[l]
      ensures Bare(f) in files
    {
      var p := (l, Bare(f));
      assert p in SnapshotOf(levels, comparator, pointers).newFiles && p.1 == Bare(f);
    }
    forall f | f in files
      ensures exists l, t :: 0 <= l < |levels| && t in levels[l] && f == Bare(t)
    {
      var p :| p in SnapshotOf(levels, comparator, pointers).newFiles && p.1 == f;
    }
    forall f, g | f in files && g in files && f.number == g.number
      ensures f == g
    {
      var l, t :| 0 <= l < |levels| && t in levels[l] && f == Bare(t);
      var m, u :| 0 <= m < |levels| && u in levels[m] && g == Bare(u);
      NumberFacts(levels, l, m, t, u);
    }
  }

  lemma OpeningFiles(edit: Edit, levels: seq<seq<Table>>, files: seq<Table>, db: Db)
    requires Opens(edit, levels, files, db)
    ensures forall f :: f in FilesOf(edit) <==> exists t :: t in files && f == Bare(t)
  {
    forall f
      ensures f in FilesOf(edit) <==> exists t :: t in files && f == Bare(t)
    {
      if f in FilesOf(edit) {
        var p :| p in edit.newFiles && p.1 == f;
        var i :| 0 <= i < |edit.newFiles| && edit.newFiles[i] == p;
        assert f == Bare(files[i]);
      }
      if t :| t in files && f == Bare(t) {
        var i :| 0 <= i < |files| && files[i] == t;
        assert edit.newFiles[i].1 == f && edit.newFiles[i] in edit.newFiles;
      }
    }
  }

  lemma OpeningKnows(edit: Edit, levels: seq<seq<Table>>, files: seq<Table>, db: Db, comparator: Bytes,
                     pointers: seq<(nat, InternalKey)>)
    requires Opens(edit, levels, files, db)
    ensures Known(FilesOf(SnapshotOf(levels, comparator, pointers)) + FilesOf(edit), db)
  {
    hide SnapshotOf, FilesOf, LevelsOrdered, UniqueNumbers, M.Named, V.SaveLevel, V.InsertAll;
    var a, b := FilesOf(SnapshotOf(levels, comparator, pointers)), FilesOf(edit);
    SnapshotKnows(levels, comparator, pointers);
    OpeningFiles(edit, levels, files, db);
    OpeningNames(edit, levels, files, db, a, b);
    forall l, f | 0 <= l < |db.levels| && f in db.levels[l]
      ensures Bare(f) in a + b
    {
      if l == 0 && f !in levels[0] { AddedByOpening(levels, files, f); }
    }
  }

  lemma AddedByOpening(levels: seq<seq<Table>>, files: seq<Table>, f: Table)
    requires levels != [] && f in AddedTo(levels, files)[0]
    ensures f in levels[0] || f in files
  {
    hide V.SaveLevel, V.InsertAll;
    AddedByEdit(levels[0], files);
    AppliedMembers(levels[0], AddingEdit(files), 0, f);
  }

  lemma OpeningNames(edit: Edit, levels: seq<seq<Table>>, files: seq<Table>, db: Db, a: set<FileMetaData>,
                     b: set<FileMetaData>)
    requires Opens(edit, levels, files, db) && OneForEach(a)
    requires forall f :: f in a ==> exists l, t :: 0 <= l < |levels| && t in levels[l] && f == Bare(t)
    requires forall f :: f in b ==> exists t :: t in files && f == Bare(t)
    ensures OneForEach(a + b) && forall f :: f in a + b ==> f.number < db.nextFileNumber
  {
    hide LevelsOrdered, UniqueNumbers, V.SaveLevel, V.InsertAll;
    forall f, g | f in a && g in b
      ensures f.number != g.number
    {
      var l, t :| 0 <= l < |levels| && t in levels[l] && f == Bare(t);
      assert DisjointNumbers(files, levels[l]);
    }
    forall f, g | f in b && g in b && f.number == g.number
      ensures f == g
    {
      var t :| t in files && f == Bare(t);
      var u :| u in files && g == Bare(u);
    }
  }

  lemma {:induction false} AddedAreFiles(edits: seq<Edit>, l: nat)
    ensures forall f :: f in M.Added(edits, l) ==> exists e :: e in edits && f in FilesOf(e)
  {
    if edits != [] {
      var front, last := edits[..|edits| - 1], edits[|edits| - 1];
      AddedAreFiles(front, l);
      forall f | f in M.Added(edits, l)
        ensures exists e :: e in edits && f in FilesOf(e)
      {
        if f in M.Added(front, l) {
          var e :| e in front && f in FilesOf(e);
          assert e in edits;
        } else {
          NewIsIn(last.newFiles, l, f);
          assert last in edits;
        }
      }
    }
  }

  lemma {:induction false} AllFilesAre(edits: seq<Edit>)
    ensures forall e :: e in edits ==> FilesOf(e) <= AllFiles(edits)
  {
    if edits != [] {
      AllFilesAre(edits[1..]);
      assert edits == [edits[0]] + edits[1..];
    }
  }

  lemma RunIsNamed(edit: Edit, levels: seq<seq<Table>>, files: seq<Table>, db: Db, steps: seq<Step>, edits: seq<Edit>,
                   comparator: Bytes, pointers: seq<(nat, InternalKey)>, l: nat)
    requires Opens(edit, levels, files, db) && db.Inv() && IsRun(db, steps) && OnRecord(db, steps, edits)
    ensures M.Named(M.Added([SnapshotOf(levels, comparator, pointers)] + ([edit] + edits), l))
  {
    hide Opens, Db.Inv, IsRun, OnRecord, M.Added, FilesOf, SnapshotOf;
    var snapshot := SnapshotOf(levels, comparator, pointers);
    OpeningKnows(edit, levels, files, db, comparator, pointers);
    RunKnows(db, steps, edits, FilesOf(snapshot) + FilesOf(edit));
    var all := [snapshot] + ([edit] + edits);
    assert all[1..] == [edit] + edits && all[1..][1..] == edits;
    assert AllFiles(all) == FilesOf(snapshot) + AllFiles(all[1..]) && AllFiles(all[1..]) == FilesOf(edit) + AllFiles(edits);
    AddedAreFiles(all, l);
    AllFilesAre(all);
  }

  lemma {:induction false} RunCarriesNumbers(db: Db, steps: seq<Step>, edits: seq<Edit>)
    requires IsRun(db, steps) && OnRecord(db, steps, edits)
    ensures forall e :: e in edits ==> CarriesNumbers(e)
    decreases |steps|
  {
    hide Allowed, Apply, FilesOfStep;
    if steps != [] {
      if ChangesFiles(steps[0]) {
        RunCarriesNumbers(Apply(db, steps[0]), steps[1..], edits[1..]);
        assert edits == [edits[0]] + edits[1..];
      } else {
        RunCarriesNumbers(Apply(db, steps[0]), steps[1..], edits);
      }
    }
  }

  lemma BareInOrder(levels: seq<seq<Table>>, l: nat)
    requires LevelsOrdered(levels) && l < |levels|
    ensures V.StrictlyOrdered(BareFiles(levels[l]))
  {
    assert V.StrictlyOrdered(levels[l]);
  }

  /** What recovery needs of a manifest holds of the manifest of every run. */
  lemma RunIsOk(edit: Edit, levels: seq<seq<Table>>, files: seq<Table>, db: Db, steps: seq<Step>, edits: seq<Edit>,
                comparator: Bytes, pointers: seq<(nat, InternalKey)>)
    requires Opens(edit, levels, files, db) && db.Inv() && IsRun(db, steps) && OnRecord(db, steps, edits)
    ensures ManifestOk(BareLevels(levels), SnapshotOf(levels, comparator, pointers), [edit] + edits)
  {
    hide Opens, Db.Inv, IsRun, OnRecord, M.Added, M.Named, M.AllAddOnlyNew, M.InTurn, M.Applied, M.AddsOnlyNew;
    hide V.StrictlyOrdered, SnapshotOf, BareFiles;
    RunCarriesNumbers(db, steps, edits);
    OpeningParts(edit, levels, files, db);
    forall l | 0 <= l < V.NUM_LEVELS
      ensures LevelOkFor(BareLevels(levels)[l], SnapshotOf(levels, comparator, pointers), [edit] + edits, l)
    {
      RunReplays(db, steps, edits, l);
      OpeningReplays(edit, levels, files, db, l);
      OneEditOn(BareFiles(levels[l]), edit, edits, l);
      RunIsNamed(edit, levels, files, db, steps, edits, comparator, pointers, l);
      BareInOrder(levels, l);
    }
  }

  lemma OpeningParts(edit: Edit, levels: seq<seq<Table>>, files: seq<Table>, db: Db)
    requires Opens(edit, levels, files, db)
    ensures |levels| == NUM_LEVELS && LevelsOrdered(levels) && CarriesNumbers(edit)
    ensures edit.nextFileNumber == Some(db.nextFileNumber) && edit.lastSequence == Some(db.lastSequence)
    ensures edit.logNumber == Some(db.logs.oldest) && edit.prevLogNumber == Some(db.logs.prev)
  {
  }

  /** The part of the run that ends with the step of the `j`-th edit. */
  lemma {:induction false} UpToEdit(db: Db, steps: seq<Step>, edits: seq<Edit>, j: nat) returns (k: nat)
    requires IsRun(db, steps) && OnRecord(db, steps, edits) && j <= |edits|
    ensures k <= |steps| && (j == 0 ==> k == 0) && (j > 0 ==> k > 0 && ChangesFiles(steps[k - 1]))
    ensures IsRun(db, steps[..k]) && OnRecord(db, steps[..k], edits[..j])
    decreases |steps|
  {
    hide Allowed, Apply, Recorded;
    if j == 0 {
      return 0;
    }
    var next := Apply(db, steps[0]);
    if !ChangesFiles(steps[0]) {
      k := UpToEdit(next, steps[1..], edits, j);
      assert steps[..k + 1][1..] == steps[1..][..k];
    } else if j > 1 {
      k := UpToEdit(next, steps[1..], edits[1..], j - 1);
      assert steps[..k + 1][1..] == steps[1..][..k] && edits[..j][1..] == edits[1..][..j - 1];
    } else {
      k := 0;
      assert steps[..1][1..] == [] && edits[..1][1..] == [];
      assert IsRun(next, []) && OnRecord(next, [], []);
    }
    k := k + 1;
  }

  /** The last edit carries the numbers of the state its step leads to. */
  lemma {:induction false} LastNumbers(db: Db, steps: seq<Step>, edits: seq<Edit>)
    requires IsRun(db, steps) && OnRecord(db, steps, edits) && steps != [] && ChangesFiles(steps[|steps| - 1])
    ensures edits != [] && edits[|edits| - 1].nextFileNumber == Some(EndOf(db, steps).nextFileNumber)
    ensures edits[|edits| - 1].lastSequence == Some(EndOf(db, steps).lastSequence)
    ensures edits[|edits| - 1].logNumber == Some(EndOf(db, steps).logs.oldest)
    ensures edits[|edits| - 1].prevLogNumber == Some(EndOf(db, steps).logs.prev)
    decreases |steps|
  {
    hide Allowed, Apply, FilesOfStep;
    var next := Apply(db, steps[0]);
    if |steps| == 1 {
      assert steps[1..] == [] && EndOf(next, []) == next;
    } else {
      LastNumbers(next, steps[1..], if ChangesFiles(steps[0]) then edits[1..] else edits);
    }
  }

  /** Recovery yields the version and the numbers of a state of the run. */
  ghost predicate RecoversState(r: Recovered, db: Db) {
    && r.Recovered? && r.levels == BareLevels(db.levels) && r.nextFileNumber == db.nextFileNumber
    && r.lastSequence == db.lastSequence && r.logNumber == db.logs.oldest && r.prevLogNumber == db.logs.prev
  }

  /** The manifest: a snapshot of the version recovered, the edit recorded on opening, and those of the run so far. */
  ghost predicate ManifestOf(all: seq<Edit>, levels: seq<seq<Table>>, files: seq<Table>, db: Db, steps: seq<Step>,
                             comparator: Bytes, pointers: seq<(nat, InternalKey)>)
    requires IsRun(db, steps)
  {
    && |all| >= 2 && all[0] == SnapshotOf(levels, comparator, pointers) && Opens(all[1], levels, files, db)
    && OnRecord(db, steps, all[2..])
  }

  /**
   * The manifest of any run of the database, cut short anywhere behind its first edit: recovery yields the version and
   * the numbers of the database as it was right after the last flush, move or compaction whose edit is whole, or when
   * it was opened.
   */
  lemma RecoversTheDatabase(levels: seq<seq<Table>>, files: seq<Table>, db: Db, steps: seq<Step>, all: seq<Edit>,
                            comparator: Bytes, pointers: seq<(nat, InternalKey)>, keys: Places, cut: nat, r: Recovered)
    returns (j: nat, k: nat)
    requires db.Inv() && IsRun(db, steps) && ManifestOf(all, levels, files, db, steps, comparator, pointers)
    requires AllStorable(all, comparator, keys)
    requires var records := Records(all, comparator, keys);
             && |Log(0, records[..2])| <= cut <= |Log(0, records)|
             && RecoveredFromBytes(r, Log(0, records)[..cut], comparator, keys)
    ensures j + 2 <= |all| && k <= |steps| && (k > 0 ==> ChangesFiles(steps[k - 1]))
    ensures var records := Records(all, comparator, keys);
            |Log(0, records[..j + 2])| <= cut && (j + 2 < |all| ==> cut < |Log(0, records[..j + 3])|)
    ensures IsRun(db, steps[..k]) && OnRecord(db, steps[..k], all[2..][..j]) && RecoversState(r, EndOf(db, steps[..k]))
  {
    hide Db.Inv, Log, ReadAll, DecodeRecords, RecoveredFrom, IsRun, EndOf, OnRecord, AllStorable, ManifestOk, Opens;
    hide M.Snapshot, IsAfter;
    var edit, edits := all[1], all[2..];
    assert all == [all[0]] + ([edit] + edits);
    RunIsOk(edit, levels, files, db, steps, edits, comparator, pointers);
    OpeningParts(edit, levels, files, db);
    var e := ManifestSurvives(BareLevels(levels), comparator, pointers, [edit] + edits, keys, cut, r);
    j := e - 1;
    k := UpToEdit(db, steps, edits, j);
    assert ([edit] + edits)[..e] == [edit] + edits[..j];
    AfterEdits(edit, levels, files, db, steps[..k], edits[..j], pointers, r);
  }

  lemma AfterEdits(edit: Edit, levels: seq<seq<Table>>, files: seq<Table>, db: Db, steps: seq<Step>, edits: seq<Edit>,
                   pointers: seq<(nat, InternalKey)>, r: Recovered)
    requires Opens(edit, levels, files, db) && db.Inv() && IsRun(db, steps) && OnRecord(db, steps, edits)
    requires steps == [] || ChangesFiles(steps[|steps| - 1])
    requires |levels| == NUM_LEVELS && CarriesNumbers(([edit] + edits)[|edits|])
    requires IsAfter(r, BareLevels(levels), pointers, [edit] + edits)
    ensures RecoversState(r, EndOf(db, steps))
  {
    hide Opens, Db.Inv, IsRun, EndOf, OnRecord, BareFiles, M.InTurn, M.Applied, M.AddsOnlyNew, M.AllAddOnlyNew;
    OpeningParts(edit, levels, files, db);
    if steps == [] {
      NoSteps(db, edits);
    } else {
      LastNumbers(db, steps, edits);
    }
    RunReplays(db, steps, edits, 0);
    forall l | 0 <= l < NUM_LEVELS
      ensures r.levels[l] == BareFiles(EndOf(db, steps).levels[l])
    {
      RunReplays(db, steps, edits, l);
      OpeningReplays(edit, levels, files, db, l);
      OneEditOn(BareFiles(levels[l]), edit, edits, l);
    }
  }

  lemma NoSteps(db: Db, edits: seq<Edit>)
    requires IsRun(db, []) && OnRecord(db, [], edits)
    ensures edits == [] && EndOf(db, []) == db
  {
  }
}
