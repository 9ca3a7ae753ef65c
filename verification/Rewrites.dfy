/**
 * Replacing files of two neighbouring levels by files holding part of the same entries: what compaction and
 * trivial moves do to a version (db/db_impl.cc, InstallCompactionResults and BackgroundCompaction).
 */
module Rewrites {
  import opened Wrappers
  import opened InternalKeys
  import opened Files
  import opened Inputs
  import opened Compactions
  import opened Lookup
  import V = Versions
  import opened VersionOrder

  ghost predicate DisjointNumbers(a: seq<Table>, b: seq<Table>) {
    forall f, g :: f in a && g in b ==> f.number != g.number
  }

  /** File numbers are unique in the version. */
  ghost predicate UniqueNumbers(levels: seq<seq<Table>>) {
    && (forall l {:trigger DistinctNumbers(levels[l])} :: 0 <= l < |levels| ==> DistinctNumbers(levels[l]))
    && (forall i, j {:trigger DisjointNumbers(levels[i], levels[j])} ::
          0 <= i < j < |levels| ==> DisjointNumbers(levels[i], levels[j]))
  }

  ghost predicate LevelsOrdered(levels: seq<seq<Table>>) {
    forall l {:trigger V.StrictlyOrdered(levels[l])} :: 0 <= l < |levels| ==> V.StrictlyOrdered(levels[l])
  }

  /** A compaction: a version, the level compacted, and the inputs taken from it and from the next level. */
  datatype Job = Job(levels: seq<seq<Table>>, level: nat, inputs0: seq<Table>, inputs1: seq<Table>) {
    function Inputs(): seq<Table> { inputs0 + inputs1 }
  }

  /** The version with the inputs replaced by the outputs, as a builder saves it. */
  function Rewritten(c: Job, outputs: seq<Table>): seq<seq<Table>>
    requires c.level + 1 < |c.levels|
  {
    c.levels[c.level := V.SaveLevel(c.levels[c.level], V.Numbers(c.inputs0), [])]
          [c.level + 1 := V.SaveLevel(c.levels[c.level + 1], V.Numbers(c.inputs1), V.InsertAll([], outputs))]
  }

  ghost predicate IsCompaction(c: Job) {
    && VersionOk(c.levels) && UniqueNumbers(c.levels) && LevelsOrdered(c.levels) && c.level + 1 < NUM_LEVELS
    && ChosenInputs(c.level, c.levels[c.level], c.inputs0) && NextLevelInputs(c.levels[c.level + 1], c.inputs0, c.inputs1)
  }

  /** The outputs are sorted, hold only entries of the inputs, and have numbers not used elsewhere. */
  ghost predicate OutputsOk(c: Job, outputs: seq<Table>) {
    && TablesOk(outputs) && LevelSorted(outputs)
    && (forall o, e :: o in outputs && e in o.contents ==> e in EntriesIn(c.Inputs()))
    && DistinctNumbers(outputs)
    && (forall o, l, g :: o in outputs && 0 <= l < |c.levels| && g in c.levels[l] && g.number == o.number ==>
          l == c.level && g in c.inputs0)
  }

  lemma NumbersOf(files: seq<Table>, n: nat)
    ensures n in V.Numbers(files) <==> exists f :: f in files && f.number == n
  {
    if n in V.Numbers(files) {
      var i :| 0 <= i < |files| && files[i].number == n;
      assert files[i] in files;
    }
    if f :| f in files && f.number == n {
      var i :| 0 <= i < |files| && files[i] == f;
      assert files[i].number == n;
    }
  }

  lemma InputsAreFiles(c: Job)
    requires c.level + 1 < |c.levels|
    requires ChosenInputs(c.level, c.levels[c.level], c.inputs0)
    requires NextLevelInputs(c.levels[c.level + 1], c.inputs0, c.inputs1)
    ensures forall f :: f in c.inputs0 ==> f in c.levels[c.level]
    ensures forall f :: f in c.inputs1 ==> f in c.levels[c.level + 1]
  {
    ChosenAreInLevel(c.level, c.levels[c.level], c.inputs0);
    var smallest, largest :| IsRange(c.inputs0, smallest, largest)
                             && c.inputs1 == Overlapping(c.levels[c.level + 1], Some(smallest.user), Some(largest.user));
    OverlappingMembers(c.levels[c.level + 1], Some(smallest.user), Some(largest.user));
  }

  /** Which files a saved level holds. */
  lemma SavedMembers(base: seq<Table>, inputs: seq<Table>, outputs: seq<Table>)
    requires V.StrictlyOrdered(base)
    requires DistinctNumbers(base) && DistinctNumbers(outputs)
    requires forall f :: f in inputs ==> f in base
    requires forall o, g :: o in outputs && g in base ==> g.number != o.number
    ensures var saved := V.SaveLevel(base, V.Numbers(inputs), V.InsertAll([], outputs));
            V.StrictlyOrdered(saved)
            && forall f :: f in saved <==> (f in base && f !in inputs) || f in outputs
  {
    hide V.SaveLevel, V.InsertAll, V.Numbers;
    var added := V.InsertAll([], outputs);
    var saved := V.SaveLevel(base, V.Numbers(inputs), added);
    assert [] + outputs == outputs;
    InsertAllOrdered([], outputs);
    StrictlyOrderedCounts(base);
    StrictlyOrderedCounts(added);
    SaveLevelContents(base, V.Numbers(inputs), added);
    forall f
      ensures multiset(saved)[f] <= 1 && (f in saved <==> (f in base && f !in inputs) || f in outputs)
    {
      NumbersOf(inputs, f.number);
      assert f in saved <==> multiset(saved)[f] > 0;
    }
    OrderedOnce(saved);
  }

  ghost predicate HasLevel(after: seq<Table>, before: seq<Table>, removed: seq<Table>, added: seq<Table>) {
    forall f :: f in after <==> (f in before && f !in removed) || f in added
  }

  /** Which files the rewritten version holds. */
  ghost predicate HasFiles(c: Job, outputs: seq<Table>, after: seq<seq<Table>>)
    requires c.level + 1 < |c.levels|
  {
    && |after| == |c.levels|
    && HasLevel(after[c.level], c.levels[c.level], c.inputs0, [])
    && HasLevel(after[c.level + 1], c.levels[c.level + 1], c.inputs1, outputs)
    && (forall l {:trigger after[l]} :: 0 <= l < |c.levels| && l != c.level && l != c.level + 1 ==>
          after[l] == c.levels[l])
  }

  lemma RewrittenFiles(c: Job, outputs: seq<Table>, after: seq<seq<Table>>)
    requires UniqueNumbers(c.levels) && LevelsOrdered(c.levels) && c.level + 1 < |c.levels|
    requires ChosenInputs(c.level, c.levels[c.level], c.inputs0)
    requires NextLevelInputs(c.levels[c.level + 1], c.inputs0, c.inputs1)
    requires DistinctNumbers(outputs) && DisjointNumbers(outputs, c.levels[c.level + 1])
    requires after == Rewritten(c, outputs)
    ensures HasFiles(c, outputs, after) && LevelsOrdered(after)
  {
    InputsAreFiles(c);
    RewrittenLevel(c.levels, c.level, c.inputs0, []);
    RewrittenLevel(c.levels, c.level + 1, c.inputs1, outputs);
    forall l | 0 <= l < |after|
      ensures V.StrictlyOrdered(after[l])
    {
      if l != c.level && l != c.level + 1 {
        assert after[l] == c.levels[l];
        assert V.StrictlyOrdered(c.levels[l]);
      }
    }
  }

  lemma RewrittenLevel(levels: seq<seq<Table>>, l: nat, inputs: seq<Table>, outputs: seq<Table>)
    requires UniqueNumbers(levels) && LevelsOrdered(levels) && l < |levels|
    requires forall f :: f in inputs ==> f in levels[l]
    requires DistinctNumbers(outputs) && DisjointNumbers(outputs, levels[l])
    ensures var saved := V.SaveLevel(levels[l], V.Numbers(inputs), V.InsertAll([], outputs));
            V.StrictlyOrdered(saved) && HasLevel(saved, levels[l], inputs, outputs)
  {
    assert DistinctNumbers(levels[l]) && V.StrictlyOrdered(levels[l]);
    SavedMembers(levels[l], inputs, outputs);
  }

  /** A file left out of the inputs' level holds only newer entries of their user keys. */
  lemma LeftOutIsNewer(level: nat, files: seq<Table>, inputs0: seq<Table>, h: Table, f: Table)
    requires TablesOk(files) && (level > 0 ==> LevelSorted(files)) && ChosenInputs(level, files, inputs0)
    requires h in files && h !in inputs0 && f in inputs0
    ensures Newer(h.contents, f.contents)
    ensures level == 0 ==> h.largest.user < f.smallest.user || f.largest.user < h.smallest.user
  {
    ChosenAreInLevel(level, files, inputs0);
    assert TableOk(h) && TableOk(f);
    if level > 0 {
      var a: nat, b: nat :| IsCleanSlice(files, inputs0, a, b);
      LeftOutOfSlice(files, inputs0, a, b, h, f);
    } else {
      var lo, hi :| Closed(files, lo, hi) && inputs0 == Overlapping(files, lo, hi);
      OverlappingMembers(files, lo, hi);
      assert Contains(lo, hi, Some(f.smallest.user), Some(f.largest.user));
    }
    RangesTellAge(h, f);
  }

  lemma LeftOutOfSlice(files: seq<Table>, inputs0: seq<Table>, a: nat, b: nat, h: Table, f: Table)
    requires TablesOk(files) && LevelSorted(files) && IsCleanSlice(files, inputs0, a, b)
    requires h in files && h !in inputs0 && f in inputs0
    ensures Precedes(h.largest, f.smallest) || f.largest.user < h.smallest.user
  {
    var i :| 0 <= i < |files| && files[i] == h;
    var k :| 0 <= k < |inputs0| && inputs0[k] == f;
    assert files[a + k] == f;
    if i >= b {
      FirstKeysOk(files);
      EndsIncrease(files);
    }
  }

  lemma RangesTellAge(h: Table, f: Table)
    requires TableOk(h) && TableOk(f)
    requires Precedes(h.largest, f.smallest) || f.largest.user < h.smallest.user || h.largest.user < f.smallest.user
    ensures Newer(h.contents, f.contents)
  {
    WithinRange(h);
    WithinRange(f);
  }

  lemma WithinRange(f: Table)
    requires TableOk(f)
    ensures forall e :: e in f.contents ==> f.smallest.user <= e.key.user <= f.largest.user
    ensures forall e :: e in f.contents ==> e.key == f.smallest || Precedes(f.smallest, e.key)
    ensures forall e :: e in f.contents ==> e.key == f.largest || Precedes(e.key, f.largest)
  {
  }

  /** A file `h` that is newer (or older) than every input is newer (or older) than every output. */
  lemma OutputsInheritAge(inputs: seq<Table>, o: Table, h: Table)
    requires forall e :: e in o.contents ==> e in EntriesIn(inputs)
    ensures (forall f :: f in inputs ==> Newer(h.contents, f.contents)) ==> Newer(h.contents, o.contents)
    ensures (forall f :: f in inputs ==> Newer(f.contents, h.contents)) ==> Newer(o.contents, h.contents)
  {
  }

  /** A file left out of the output level lies wholly before or wholly after all inputs. */
  lemma LeftOutIsApart(next: seq<Table>, inputs0: seq<Table>, inputs1: seq<Table>, h: Table)
    requires TablesOk(next) && LevelSorted(next) && TablesOk(inputs0) && NextLevelInputs(next, inputs0, inputs1)
    requires h in next && h !in inputs1
    ensures (forall f :: f in inputs0 + inputs1 ==> Precedes(f.largest, h.smallest))
            || (forall f :: f in inputs0 + inputs1 ==> Precedes(h.largest, f.smallest))
  {
    var smallest, largest :| IsRange(inputs0, smallest, largest)
                             && inputs1 == Overlapping(next, Some(smallest.user), Some(largest.user));
    OverlappingMembers(next, Some(smallest.user), Some(largest.user));
    FirstKeysOk(next);
    forall f | f in inputs1
      ensures Precedes(f.largest, h.smallest) || Precedes(h.largest, f.smallest)
      ensures f.smallest.user <= largest.user && f.largest.user >= smallest.user && RangeOk(f) && RangeOk(h)
    {
      var i :| 0 <= i < |next| && next[i] == h;
      var k :| 0 <= k < |next| && next[k] == f;
    }
    if h.smallest.user > largest.user {
      assert forall f :: f in inputs0 ==> f.largest.user <= largest.user;
    } else {
      assert h.largest.user < smallest.user;
      assert forall f :: f in inputs0 ==> f.smallest.user >= smallest.user;
    }
  }

  /** Two files that do not overlap as internal key ranges. */
  ghost predicate Apart(f: Table, g: Table) {
    Precedes(f.largest, g.smallest) || Precedes(g.largest, f.smallest)
  }

  lemma OutputIsApart(inputs: seq<Table>, o: Table, h: Table)
    requires TableOk(o) && forall e :: e in o.contents ==> e in EntriesIn(inputs)
    requires TablesOk(inputs)
    requires (forall f :: f in inputs ==> Precedes(f.largest, h.smallest))
             || (forall f :: f in inputs ==> Precedes(h.largest, f.smallest))
    ensures Apart(o, h)
  {
    var first, last := o.contents[0], o.contents[|o.contents| - 1];
    assert first in o.contents && last in o.contents;
    var f :| f in inputs && first in f.contents;
    var g :| g in inputs && last in g.contents;
    WithinRange(f);
    WithinRange(g);
  }

  /** Files in order that are pairwise apart form a sorted level. */
  lemma ApartIsSorted(files: seq<Table>)
    requires V.StrictlyOrdered(files) && TablesOk(files)
    requires forall f, g :: f in files && g in files && f != g ==> Apart(f, g)
    ensures LevelSorted(files)
  {
    forall i, j | 0 <= i < j < |files|
      ensures Precedes(files[i].largest, files[j].smallest)
    {
      assert files[i] in files && files[j] in files;
      assert TableOk(files[i]) && TableOk(files[j]);
      assert V.BySmallestKey(files[i], files[j]);
      FirstKeysOk(files);
      assert RangeOk(files[i]) && RangeOk(files[j]);
    }
  }

  /** What is known about a rewritten version before its order is established. */
  ghost predicate Rewriting(c: Job, outputs: seq<Table>, after: seq<seq<Table>>) {
    && IsCompaction(c) && OutputsOk(c, outputs) && HasFiles(c, outputs, after) && LevelsOrdered(after)
  }

  lemma OldOrOutput(c: Job, outputs: seq<Table>, after: seq<seq<Table>>, l: nat, f: Table)
    requires c.level + 1 < |c.levels| && HasFiles(c, outputs, after)
    requires l < |after| && f in after[l]
    ensures f in c.levels[l] || (l == c.level + 1 && f in outputs)
    ensures l == c.level ==> f !in c.inputs0
    ensures l == c.level + 1 && f !in outputs ==> f !in c.inputs1
  {
  }

  lemma FileFacts(levels: seq<seq<Table>>, l: nat, f: Table)
    requires VersionOk(levels) && l < |levels| && f in levels[l]
    ensures TableOk(f)
  {
    assert TablesOk(levels[l]);
  }

  lemma AgeFacts(levels: seq<seq<Table>>, i: nat, j: nat, f: Table, g: Table)
    requires VersionOk(levels) && i < j < |levels| && f in levels[i] && g in levels[j]
    ensures Newer(f.contents, g.contents)
  {
    assert LevelNewer(levels[i], levels[j]);
  }

  /** A file above the output level that stays is newer than every input ... */
  lemma NewerThanInputs(c: Job, i: nat, f: Table)
    requires IsCompaction(c) && i <= c.level && f in c.levels[i] && (i == c.level ==> f !in c.inputs0)
    ensures forall h :: h in c.Inputs() ==> Newer(f.contents, h.contents)
  {
    InputsAreFiles(c);
    assert TablesOk(c.levels[c.level]) && (c.level > 0 ==> LevelSorted(c.levels[c.level]));
    forall h | h in c.Inputs()
      ensures Newer(f.contents, h.contents)
    {
      if h in c.inputs1 {
        AgeFacts(c.levels, i, c.level + 1, f, h);
      } else if i < c.level {
        AgeFacts(c.levels, i, c.level, f, h);
      } else {
        LeftOutIsNewer(c.level, c.levels[c.level], c.inputs0, f, h);
      }
    }
  }

  /** ... and a file below it is older. */
  lemma OlderThanInputs(c: Job, j: nat, g: Table)
    requires IsCompaction(c) && c.level + 1 < j < |c.levels| && g in c.levels[j]
    ensures forall h :: h in c.Inputs() ==> Newer(h.contents, g.contents)
  {
    InputsAreFiles(c);
    forall h | h in c.Inputs()
      ensures Newer(h.contents, g.contents)
    {
      AgeFacts(c.levels, if h in c.inputs0 then c.level else c.level + 1, j, h, g);
    }
  }

  lemma AgeAcrossLevels(c: Job, outputs: seq<Table>, after: seq<seq<Table>>, i: nat, j: nat, f: Table, g: Table)
    requires Rewriting(c, outputs, after)
    requires i < j < |after| && f in after[i] && g in after[j]
    ensures Newer(f.contents, g.contents)
  {
    OldOrOutput(c, outputs, after, i, f);
    OldOrOutput(c, outputs, after, j, g);
    if f in c.levels[i] && g in c.levels[j] {
      AgeFacts(c.levels, i, j, f, g);
    } else if f in c.levels[i] {
      NewerThanInputs(c, i, f);
      OutputsInheritAge(c.Inputs(), g, f);
    } else {
      OlderThanInputs(c, j, g);
      OutputsInheritAge(c.Inputs(), f, g);
    }
  }

  lemma LevelApart(files: seq<Table>, f: Table, g: Table)
    requires LevelSorted(files) && f in files && g in files && f != g
    ensures Apart(f, g)
  {
    var i :| 0 <= i < |files| && files[i] == f;
    var j :| 0 <= j < |files| && files[j] == g;
  }

  lemma ApartFromOutput(c: Job, outputs: seq<Table>, o: Table, h: Table)
    requires IsCompaction(c) && OutputsOk(c, outputs)
    requires o in outputs && h != o && (h in outputs || (h in c.levels[c.level + 1] && h !in c.inputs1))
    ensures Apart(o, h)
  {
    if h in outputs {
      LevelApart(outputs, o, h);
    } else {
      InputTablesOk(c);
      assert TablesOk(c.levels[c.level + 1]) && LevelSorted(c.levels[c.level + 1]);
      LeftOutIsApart(c.levels[c.level + 1], c.inputs0, c.inputs1, h);
      OutputIsApart(c.Inputs(), o, h);
    }
  }

  lemma InputTablesOk(c: Job)
    requires IsCompaction(c)
    ensures TablesOk(c.inputs0) && TablesOk(c.inputs1) && TablesOk(c.Inputs())
  {
    InputsAreFiles(c);
    assert TablesOk(c.levels[c.level]) && TablesOk(c.levels[c.level + 1]);
  }

  lemma AfterApart(c: Job, outputs: seq<Table>, after: seq<seq<Table>>, l: nat, f: Table, g: Table)
    requires Rewriting(c, outputs, after) && 0 < l < |after|
    requires f in after[l] && g in after[l] && f != g
    ensures Apart(f, g)
  {
    OldOrOutput(c, outputs, after, l, f);
    OldOrOutput(c, outputs, after, l, g);
    if f in outputs && l == c.level + 1 {
      ApartFromOutput(c, outputs, f, g);
    } else if g in outputs && l == c.level + 1 {
      ApartFromOutput(c, outputs, g, f);
    } else {
      assert LevelSorted(c.levels[l]);
      LevelApart(c.levels[l], f, g);
    }
  }

  lemma SortedLevels(c: Job, outputs: seq<Table>, after: seq<seq<Table>>, l: nat)
    requires Rewriting(c, outputs, after) && l < |after|
    ensures TablesOk(after[l]) && (l > 0 ==> LevelSorted(after[l]))
  {
    forall f | f in after[l]
      ensures TableOk(f)
    {
      OldOrOutput(c, outputs, after, l, f);
      if f in c.levels[l] { FileFacts(c.levels, l, f); }
    }
    if l > 0 {
      forall f, g | f in after[l] && g in after[l] && f != g
        ensures Apart(f, g)
      {
        AfterApart(c, outputs, after, l, f, g);
      }
      assert V.StrictlyOrdered(after[l]);
      ApartIsSorted(after[l]);
    }
  }

  /** A file number is found in one place only. */
  lemma NumberFacts(levels: seq<seq<Table>>, i: nat, j: nat, f: Table, g: Table)
    requires UniqueNumbers(levels) && i < |levels| && j < |levels| && f in levels[i] && g in levels[j]
    requires f.number == g.number
    ensures i == j && f == g
  {
    assert i < j ==> DisjointNumbers(levels[i], levels[j]);
    assert j < i ==> DisjointNumbers(levels[j], levels[i]);
    assert DistinctNumbers(levels[i]);
  }

  lemma SameNumberAfter(c: Job, outputs: seq<Table>, after: seq<seq<Table>>, i: nat, j: nat, f: Table, g: Table)
    requires Rewriting(c, outputs, after) && i < |after| && j < |after| && f in after[i] && g in after[j]
    requires f.number == g.number
    ensures i == j && f == g
  {
    OldOrOutput(c, outputs, after, i, f);
    OldOrOutput(c, outputs, after, j, g);
    if f in c.levels[i] && g in c.levels[j] {
      NumberFacts(c.levels, i, j, f, g);
    }
  }

  lemma NumbersStayUnique(c: Job, outputs: seq<Table>, after: seq<seq<Table>>)
    requires Rewriting(c, outputs, after)
    ensures UniqueNumbers(after)
  {
    forall l | 0 <= l < |after|
      ensures DistinctNumbers(after[l])
    {
      forall f, g | f in after[l] && g in after[l] && f.number == g.number
        ensures f == g
      {
        SameNumberAfter(c, outputs, after, l, l, f, g);
      }
    }
    forall i, j | 0 <= i < j < |after|
      ensures DisjointNumbers(after[i], after[j])
    {
      forall f, g | f in after[i] && g in after[j]
        ensures f.number != g.number
      {
        if f.number == g.number { SameNumberAfter(c, outputs, after, i, j, f, g); }
      }
    }
  }

  /**
   * A compaction or trivial move keeps the version in order: levels above zero stay sorted and disjoint, and data
   * still only gets older from level to level.
   */
  lemma RewriteKeepsVersion(c: Job, outputs: seq<Table>)
    requires IsCompaction(c) && OutputsOk(c, outputs)
    ensures var after := Rewritten(c, outputs);
            VersionOk(after) && UniqueNumbers(after) && LevelsOrdered(after) && HasFiles(c, outputs, after)
  {
    var after := Rewritten(c, outputs);
    RewrittenFiles(c, outputs, after);
    NumbersStayUnique(c, outputs, after);
    RewriteKeepsOrder(c, outputs, after);
  }

  lemma RewriteKeepsOrder(c: Job, outputs: seq<Table>, after: seq<seq<Table>>)
    requires Rewriting(c, outputs, after)
    ensures VersionOk(after)
  {
    forall l | 0 <= l < |after|
      ensures TablesOk(after[l]) && (l > 0 ==> LevelSorted(after[l]))
    {
      SortedLevels(c, outputs, after, l);
    }
    forall f | f in after[0]
      ensures f in c.levels[0]
    {
      OldOrOutput(c, outputs, after, 0, f);
    }
    forall i, j | 0 <= i < j < |after|
      ensures LevelNewer(after[i], after[j])
    {
      forall f, g | f in after[i] && g in after[j]
        ensures Newer(f.contents, g.contents)
      {
        AgeAcrossLevels(c, outputs, after, i, j, f, g);
      }
    }
  }
}
