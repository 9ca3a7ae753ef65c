/** The edits that flushes, moves and compactions make, and what they make of a version (db/db_impl.cc). */
module DatabaseEdits {
  import opened Wrappers
  import opened InternalKeys
  import opened Compactions
  import opened Rewrites
  import opened Database
  import M = Manifests
  import V = Versions

  type TableEdit = V.VersionEdit<seq<Entry>>

  const NO_EDIT: TableEdit := V.VersionEdit(None, None, None, None, None, [], [], [])

  ghost predicate IsCompactionEdit(edit: TableEdit, level: nat, inputs0: seq<Table>,
                                   inputs1: seq<Table>, outputs: seq<Table>) {
    && (forall d :: d in edit.deletedFiles <==>
          (exists k :: 0 <= k < |inputs0| && d == (level, inputs0[k].number))
          || exists k :: 0 <= k < |inputs1| && d == (level + 1, inputs1[k].number))
    && |edit.newFiles| == |outputs| && forall k :: 0 <= k < |outputs| ==> edit.newFiles[k] == (level + 1, outputs[k])
  }

  lemma {:induction false} AllNewAt(newFiles: seq<(nat, Table)>, outputs: seq<Table>, level: nat, l: nat)
    requires |newFiles| == |outputs| && forall k :: 0 <= k < |outputs| ==> newFiles[k] == (level, outputs[k])
    ensures V.NewAt(newFiles, l) == if l == level then outputs else []
  {
    if newFiles != [] {
      AllNewAt(newFiles[..|newFiles| - 1], outputs[..|outputs| - 1], level, l);
    }
  }

  /** Applying the edit of a compaction gives the rewritten version. */
  lemma EditRewrites(c: Job, edit: TableEdit, outputs: seq<Table>)
    requires IsCompaction(c) && OutputsOk(c, outputs)
    requires IsCompactionEdit(edit, c.level, c.inputs0, c.inputs1, outputs)
    ensures Edited(c.levels, edit) == Rewritten(c, outputs)
  {
    InputsAreFiles(c);
    forall l | 0 <= l < |c.levels|
      ensures M.Applied(c.levels[l], edit, l) == Rewritten(c, outputs)[l]
    {
      AllNewAt(edit.newFiles, outputs, c.level + 1, l);
      EditedLevelIs(c, edit, outputs, l);
    }
  }

  lemma EditedLevelIs(c: Job, edit: TableEdit, outputs: seq<Table>, l: nat)
    requires l < |c.levels| && c.level + 1 < |c.levels|
    requires forall o, g :: o in outputs && g in c.inputs1 ==> o.number != g.number
    requires IsCompactionEdit(edit, c.level, c.inputs0, c.inputs1, outputs)
    requires V.NewAt(edit.newFiles, l) == if l == c.level + 1 then outputs else []
    ensures M.Applied(c.levels[l], edit, l) == Rewritten(c, outputs)[l]
  {
    DeletedNumbers(c, edit, outputs, l);
    RewrittenAt(c, outputs, l);
    if l == c.level {
      LevelWithout(c.levels[l], edit, l, V.Numbers(c.inputs0));
    } else if l == c.level + 1 {
      NumbersApart(c.inputs1, outputs);
      LevelReplaced(c.levels[l], edit, l, V.Numbers(c.inputs1), outputs);
    } else {
      UntouchedLevel(c.levels[l], edit, l);
    }
  }

  lemma RewrittenAt(c: Job, outputs: seq<Table>, l: nat)
    requires l < |c.levels| && c.level + 1 < |c.levels|
    ensures Rewritten(c, outputs)[l] ==
            if l == c.level then V.SaveLevel(c.levels[l], V.Numbers(c.inputs0), [])
            else if l == c.level + 1 then V.SaveLevel(c.levels[l], V.Numbers(c.inputs1), V.InsertAll([], outputs))
            else c.levels[l]
  {
  }

  lemma LevelWithout(files: seq<Table>, edit: TableEdit, l: nat, deleted: set<nat>)
    requires V.NewAt(edit.newFiles, l) == [] && V.DeletedAt(edit.deletedFiles, l) == deleted
    ensures M.Applied(files, edit, l) == V.SaveLevel(files, deleted, [])
  {
    assert V.Numbers<seq<Entry>>([]) == {};
    assert {} + deleted - {} == deleted;
  }

  lemma LevelReplaced(files: seq<Table>, edit: TableEdit, l: nat, deleted: set<nat>,
                      outputs: seq<Table>)
    requires V.NewAt(edit.newFiles, l) == outputs && V.DeletedAt(edit.deletedFiles, l) == deleted
    requires deleted !! V.Numbers(outputs)
    ensures M.Applied(files, edit, l) == V.SaveLevel(files, deleted, V.InsertAll([], outputs))
  {
    assert {} + deleted - V.Numbers(outputs) == deleted;
  }

  lemma DeletedNumbers(c: Job, edit: TableEdit, outputs: seq<Table>, l: nat)
    requires IsCompactionEdit(edit, c.level, c.inputs0, c.inputs1, outputs)
    ensures V.DeletedAt(edit.deletedFiles, l) ==
            if l == c.level then V.Numbers(c.inputs0) else if l == c.level + 1 then V.Numbers(c.inputs1) else {}
  {
    forall n: nat
      ensures n in V.DeletedAt(edit.deletedFiles, l) <==> (l, n) in edit.deletedFiles
    {
      if n in V.DeletedAt(edit.deletedFiles, l) {
        var d :| d in edit.deletedFiles && d.0 == l && d.1 == n;
        assert d == (l, n);
      }
    }
    if l == c.level {
      forall n ensures n in V.DeletedAt(edit.deletedFiles, l) <==> n in V.Numbers(c.inputs0) {}
    } else if l == c.level + 1 {
      forall n ensures n in V.DeletedAt(edit.deletedFiles, l) <==> n in V.Numbers(c.inputs1) {}
    }
  }

  lemma NumbersApart(a: seq<Table>, b: seq<Table>)
    requires forall o, g :: o in b && g in a ==> o.number != g.number
    ensures V.Numbers(a) !! V.Numbers(b)
  {
    forall n | n in V.Numbers(a)
      ensures n !in V.Numbers(b)
    {
      NumbersOf(a, n);
      NumbersOf(b, n);
    }
  }

  /** The version a builder makes from a version and an edit. */
  function Edited(levels: seq<seq<Table>>, edit: TableEdit): seq<seq<Table>> {
    seq(|levels|, l requires 0 <= l < |levels| => M.Applied(levels[l], edit, l))
  }

  lemma {:induction false} KeepAll(files: seq<Table>)
    ensures V.Keep(files, {}) == files
  {
    if files != [] { KeepAll(files[1..]); }
  }

  lemma UntouchedLevel(files: seq<Table>, edit: TableEdit, l: nat)
    requires V.NewAt(edit.newFiles, l) == [] && V.DeletedAt(edit.deletedFiles, l) == {}
    ensures M.Applied(files, edit, l) == files
  {
    assert V.Numbers<seq<Entry>>([]) == {};
    KeepAll(files);
  }

  /** Only its files matter to what an edit makes of a version. */
  lemma SameEdited(levels: seq<seq<Table>>, a: TableEdit, b: TableEdit)
    requires a.newFiles == b.newFiles && a.deletedFiles == b.deletedFiles
    ensures Edited(levels, a) == Edited(levels, b)
  {
  }

  lemma EditAddsNone(levels: seq<seq<Table>>, edit: TableEdit)
    requires edit.newFiles == [] && edit.deletedFiles == []
    ensures Edited(levels, edit) == levels
  {
    forall l | 0 <= l < |levels|
      ensures M.Applied(levels[l], edit, l) == levels[l]
    {
      UntouchedLevel(levels[l], edit, l);
    }
  }

  lemma EditAddsOne(levels: seq<seq<Table>>, edit: TableEdit, level: nat, f: Table)
    requires level < |levels| && edit.newFiles == [(level, f)] && edit.deletedFiles == []
    ensures Edited(levels, edit) == Added(levels, level, f)
  {
    assert edit.newFiles[..0] == [];
    assert V.NewAt(edit.newFiles, level) == [f];
    assert {} + V.DeletedAt(edit.deletedFiles, level) - V.Numbers([f]) == {};
    forall l | 0 <= l < |levels| && l != level
      ensures M.Applied(levels[l], edit, l) == levels[l]
    {
      assert V.NewAt(edit.newFiles, l) == [];
      UntouchedLevel(levels[l], edit, l);
    }
  }

  // Files added to level 0, as when a database is opened

  function AddedTo(levels: seq<seq<Table>>, files: seq<Table>): seq<seq<Table>>
    requires levels != []
  {
    levels[0 := V.SaveLevel(levels[0], {}, V.InsertAll([], files))]
  }

  /** The edit that adds some files to level 0. */
  function AddingEdit(files: seq<Table>): TableEdit {
    NO_EDIT.(newFiles := seq(|files|, i requires 0 <= i < |files| => (0, files[i])))
  }

  lemma AddedByEdit(level: seq<Table>, files: seq<Table>)
    ensures M.Applied(level, AddingEdit(files), 0) == V.SaveLevel(level, {}, V.InsertAll([], files))
    ensures V.NewAt(AddingEdit(files).newFiles, 0) == files && M.Gone(AddingEdit(files), 0) == {}
  {
    AllNewAt(AddingEdit(files).newFiles, files, 0, 0);
    assert V.DeletedAt([], 0) == {};
    assert {} + {} - V.Numbers(files) == {};
  }

  lemma NothingAdded(level: seq<Table>)
    ensures V.SaveLevel(level, {}, V.InsertAll([], [])) == level
  {
    KeepAll(level);
  }
}
