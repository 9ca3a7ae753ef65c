/** Version edits and their application to a version (db/version_edit.h; db/version_set.cc, Builder). */
module Versions {
  import opened Wrappers
  import opened InternalKeys
  import opened Files

  const NUM_LEVELS := 7

  datatype VersionEdit<+C> = VersionEdit(
    comparator: Option<Bytes>,
    logNumber: Option<nat>,
    prevLogNumber: Option<nat>,
    nextFileNumber: Option<nat>,
    lastSequence: Option<nat>,
    compactPointers: seq<(nat, InternalKey)>,
    deletedFiles: seq<(nat, nat)>,          // (level, number); a std::set, hence kept in order
    newFiles: seq<(nat, File<C>)>)

  predicate PairLess(p: (nat, nat), q: (nat, nat)) {
    p.0 < q.0 || (p.0 == q.0 && p.1 < q.1)
  }

  /** Insertion into the std::set of deleted files. */
  function InsertPair(pairs: seq<(nat, nat)>, p: (nat, nat)): (r: seq<(nat, nat)>)
    ensures forall q :: q in r <==> q in pairs || q == p
  {
    if pairs == [] || PairLess(p, pairs[0]) then [p] + pairs
    else if pairs[0] == p then pairs
    else
      assert pairs == [pairs[0]] + pairs[1..];
      [pairs[0]] + InsertPair(pairs[1..], p)
  }

  /** The order of the files of a level: by smallest key, then by number. */
  predicate BySmallestKey<C>(f: File<C>, g: File<C>) {
    Before(f.smallest, g.smallest) || (f.smallest == g.smallest && f.number < g.number)
  }

  ghost predicate Ordered<C>(files: seq<File<C>>) {
    forall i, j :: 0 <= i < j < |files| ==> !BySmallestKey(files[j], files[i])
  }

  ghost predicate StrictlyOrdered<C>(files: seq<File<C>>) {
    forall i, j :: 0 <= i < j < |files| ==> BySmallestKey(files[i], files[j])
  }

  /** Insertion into a std::set ordered by smallest key and number. */
  function Insert<C>(added: seq<File<C>>, f: File<C>): seq<File<C>> {
    if added == [] || BySmallestKey(f, added[0]) then [f] + added
    else if BySmallestKey(added[0], f) then [added[0]] + Insert(added[1..], f)
    else added
  }

  function InsertAll<C>(added: seq<File<C>>, files: seq<File<C>>): seq<File<C>> {
    if files == [] then added
    else Insert(InsertAll(added, files[..|files| - 1]), files[|files| - 1])
  }

  /** The files of the base and the added files in order; of equal files the base's come first. */
  function Merge<C>(base: seq<File<C>>, added: seq<File<C>>): seq<File<C>>
    decreases |base| + |added|
  {
    if added == [] then base
    else if base != [] && !BySmallestKey(added[0], base[0]) then [base[0]] + Merge(base[1..], added)
    else [added[0]] + Merge(base, added[1..])
  }

  /** The files whose number is not deleted. */
  function Keep<C>(files: seq<File<C>>, deleted: set<nat>): seq<File<C>> {
    if files == [] then []
    else (if files[0].number in deleted then [] else [files[0]]) + Keep(files[1..], deleted)
  }

  function SaveLevel<C>(base: seq<File<C>>, deleted: set<nat>, added: seq<File<C>>): seq<File<C>> {
    Keep(Merge(base, added), deleted)
  }

  /** The first step of the merge takes a base file ... */
  lemma SaveTakesBase<C>(base: seq<File<C>>, i: nat, deleted: set<nat>, added: seq<File<C>>)
    requires i < |base| && (added != [] ==> !BySmallestKey(added[0], base[i]))
    ensures SaveLevel(base[i..], deleted, added)
            == (if base[i].number in deleted then [] else [base[i]]) + SaveLevel(base[i + 1..], deleted, added)
  {
    assert base[i..][1..] == base[i + 1..];
    var rest := Merge(base[i + 1..], added);
    assert Merge(base[i..], added) == [base[i]] + rest;
    assert ([base[i]] + rest)[1..] == rest;
  }

  /** ... or an added one. */
  lemma SaveTakesAdded<C>(base: seq<File<C>>, deleted: set<nat>, added: seq<File<C>>, i: nat)
    requires i < |added| && (base != [] ==> BySmallestKey(added[i], base[0]))
    ensures SaveLevel(base, deleted, added[i..])
            == (if added[i].number in deleted then [] else [added[i]]) + SaveLevel(base, deleted, added[i + 1..])
  {
    assert added[i..][1..] == added[i + 1..];
    var rest := Merge(base, added[i + 1..]);
    assert ([added[i]] + rest)[1..] == rest;
  }

  function DeletedAt(deletedFiles: seq<(nat, nat)>, level: nat): set<nat> {
    set d | d in deletedFiles && d.0 == level :: d.1
  }

  function NewAt<C>(newFiles: seq<(nat, File<C>)>, level: nat): seq<File<C>> {
    if newFiles == [] then []
    else
      var last := newFiles[|newFiles| - 1];
      NewAt(newFiles[..|newFiles| - 1], level) + if last.0 == level then [last.1] else []
  }

  function Numbers<C>(files: seq<File<C>>): set<nat> {
    set i | 0 <= i < |files| :: files[i].number
  }

  /** The state a builder keeps for one level. */
  datatype LevelState<+C> = LevelState(deleted: set<nat>, added: seq<File<C>>)

  function ApplyToLevel<C>(state: LevelState<C>, edit: VersionEdit<C>, level: nat): LevelState<C> {
    var files := NewAt(edit.newFiles, level);
    LevelState(state.deleted + DeletedAt(edit.deletedFiles, level) - Numbers(files), InsertAll(state.added, files))
  }

  ghost predicate LevelsInRange<C>(edit: VersionEdit<C>) {
    && (forall d :: d in edit.deletedFiles ==> d.0 < NUM_LEVELS)
    && (forall i :: 0 <= i < |edit.newFiles| ==> edit.newFiles[i].0 < NUM_LEVELS)
    && (forall i :: 0 <= i < |edit.compactPointers| ==> edit.compactPointers[i].0 < NUM_LEVELS)
  }

  /** The compaction pointer of every level, `None` where there is none yet. */
  type Pointers = p: seq<Option<InternalKey>> | |p| == NUM_LEVELS witness [None, None, None, None, None, None, None]

  const NO_POINTERS: Pointers := [None, None, None, None, None, None, None]

  /** The compaction pointers after some updates. */
  function Pointed(pointers: Pointers, updates: seq<(nat, InternalKey)>): Pointers
    decreases |updates|
  {
    if updates == [] then pointers
    else
      var earlier, (level, key) := Pointed(pointers, updates[..|updates| - 1]), updates[|updates| - 1];
      if level < NUM_LEVELS then earlier[level := Some(key)] else earlier
  }

  class Builder<C> {
    const base: seq<seq<File<C>>>
    var levels: seq<LevelState<C>>
    var compactPointer: Pointers  // of the version set

    constructor (base: seq<seq<File<C>>>, compactPointer: Pointers)
      requires |base| == NUM_LEVELS
      ensures this.base == base && this.compactPointer == compactPointer && Valid()
      ensures forall l :: 0 <= l < NUM_LEVELS ==> levels[l] == LevelState({}, [])
    {
      this.base, this.compactPointer := base, compactPointer;
      levels := seq(NUM_LEVELS, _ => LevelState({}, []));
    }

    ghost predicate Valid()
      reads this
    {
      |base| == |levels| == NUM_LEVELS
    }

    method Apply(edit: VersionEdit<C>)
      requires Valid() && LevelsInRange(edit)
      modifies this`levels, this`compactPointer
      ensures Valid() && compactPointer == Pointed(old(compactPointer), edit.compactPointers)
      ensures forall l :: 0 <= l < NUM_LEVELS ==> levels[l] == ApplyToLevel(old(levels)[l], edit, l)
    {
      UpdatePointers(edit.compactPointers);
      DeleteFiles(edit.deletedFiles);
      AddFiles(edit.newFiles);
    }

    method UpdatePointers(updates: seq<(nat, InternalKey)>)
      requires Valid() && forall i :: 0 <= i < |updates| ==> updates[i].0 < NUM_LEVELS
      modifies this`compactPointer
      ensures Valid() && compactPointer == Pointed(old(compactPointer), updates)
    {
      for i := 0 to |updates|
        invariant Valid() && compactPointer == Pointed(old(compactPointer), updates[..i])
      {
        assert updates[..i + 1][..i] == updates[..i];
        compactPointer := compactPointer[updates[i].0 := Some(updates[i].1)];
      }
      assert updates[..|updates|] == updates;
    }

    method DeleteFiles(deletedFiles: seq<(nat, nat)>)
      requires Valid() && forall d :: d in deletedFiles ==> d.0 < NUM_LEVELS
      modifies this`levels
      ensures Valid()
      ensures forall l :: 0 <= l < NUM_LEVELS ==>
        levels[l] == LevelState(old(levels)[l].deleted + DeletedAt(deletedFiles, l), old(levels)[l].added)
    {
      ghost var before := levels;
      for i := 0 to |deletedFiles|
        invariant Valid()
        invariant forall l :: 0 <= l < NUM_LEVELS ==>
          levels[l] == LevelState(before[l].deleted + DeletedAt(deletedFiles[..i], l), before[l].added)
      {
        var (level, number) := deletedFiles[i];
        assert deletedFiles[i] in deletedFiles;
        levels := levels[level := levels[level].(deleted := levels[level].deleted + {number})];
        DeletedAtExtends(deletedFiles, i);
      }
      assert deletedFiles[..|deletedFiles|] == deletedFiles;
    }

    static lemma DeletedAtExtends(deletedFiles: seq<(nat, nat)>, i: nat)
      requires i < |deletedFiles|
      ensures forall l: nat ::
        DeletedAt(deletedFiles[..i + 1], l)
        == DeletedAt(deletedFiles[..i], l) + if l == deletedFiles[i].0 then {deletedFiles[i].1} else {}
    {
      assert deletedFiles[..i + 1] == deletedFiles[..i] + [deletedFiles[i]];
    }

    method AddFiles(newFiles: seq<(nat, File<C>)>)
      requires Valid() && forall i :: 0 <= i < |newFiles| ==> newFiles[i].0 < NUM_LEVELS
      modifies this`levels
      ensures Valid()
      ensures forall l :: 0 <= l < NUM_LEVELS ==>
        levels[l] == LevelState(old(levels)[l].deleted - Numbers(NewAt(newFiles, l)),
                                InsertAll(old(levels)[l].added, NewAt(newFiles, l)))
    {
      ghost var before := levels;
      for i := 0 to |newFiles|
        invariant Valid()
        invariant forall l :: 0 <= l < NUM_LEVELS ==>
          levels[l] == LevelState(before[l].deleted - Numbers(NewAt(newFiles[..i], l)),
                                  InsertAll(before[l].added, NewAt(newFiles[..i], l)))
      {
        var (level, f) := newFiles[i];
        levels := levels[level := LevelState(levels[level].deleted - {f.number}, Insert(levels[level].added, f))];
        NewAtExtends(newFiles, i);
      }
      assert newFiles[..|newFiles|] == newFiles;
    }

    static lemma NewAtExtends(newFiles: seq<(nat, File<C>)>, i: nat)
      requires i < |newFiles|
      ensures forall l: nat :: l != newFiles[i].0 ==> NewAt(newFiles[..i + 1], l) == NewAt(newFiles[..i], l)
      ensures NewAt(newFiles[..i + 1], newFiles[i].0) == NewAt(newFiles[..i], newFiles[i].0) + [newFiles[i].1]
      ensures Numbers(NewAt(newFiles[..i + 1], newFiles[i].0))
              == Numbers(NewAt(newFiles[..i], newFiles[i].0)) + {newFiles[i].1.number}
      ensures forall start: seq<File<C>> ::
        InsertAll(start, NewAt(newFiles[..i + 1], newFiles[i].0))
        == Insert(InsertAll(start, NewAt(newFiles[..i], newFiles[i].0)), newFiles[i].1)
    {
      assert newFiles[..i + 1][..i] == newFiles[..i];
      var earlier, f := NewAt(newFiles[..i], newFiles[i].0), newFiles[i].1;
      assert (earlier + [f])[..|earlier|] == earlier;
      var all := earlier + [f];
      forall n | n in Numbers(all)
        ensures n in Numbers(earlier) + {f.number}
      {
        var k :| 0 <= k < |all| && all[k].number == n;
        assert k < |earlier| ==> earlier[k] == all[k];
      }
      forall n | n in Numbers(earlier) + {f.number}
        ensures n in Numbers(all)
      {
        if n == f.number {
          assert all[|earlier|].number == n;
        } else {
          var k :| 0 <= k < |earlier| && earlier[k].number == n;
          assert all[k].number == n;
        }
      }
    }

    method SaveTo() returns (saved: seq<seq<File<C>>>)
      requires Valid()
      ensures |saved| == NUM_LEVELS
      ensures forall l :: 0 <= l < NUM_LEVELS ==> saved[l] == SaveLevel(base[l], levels[l].deleted, levels[l].added)
    {
      saved := [];
      for level := 0 to NUM_LEVELS
        invariant |saved| == level
        invariant forall l :: 0 <= l < level ==> saved[l] == SaveLevel(base[l], levels[l].deleted, levels[l].added)
      {
        var files := SaveOneLevel(base[level], levels[level]);
        saved := saved + [files];
      }
    }

    /** Merge the set of added files with the base files, dropping the deleted ones. */
    static method SaveOneLevel(baseFiles: seq<File<C>>, state: LevelState<C>) returns (files: seq<File<C>>)
      ensures files == SaveLevel(baseFiles, state.deleted, state.added)
    {
      files := [];
      var baseIter := 0;
      ghost var rest := SaveLevel(baseFiles, state.deleted, state.added);  // what is still to be added
      ghost var all := rest;
      for i := 0 to |state.added|
        invariant baseIter <= |baseFiles| && files + rest == all
        invariant rest == SaveLevel(baseFiles[baseIter..], state.deleted, state.added[i..])
      {
        // std::upper_bound: the first base file after the added one
        while baseIter < |baseFiles| && !BySmallestKey(state.added[i], baseFiles[baseIter])
          invariant baseIter <= |baseFiles| && files + rest == all
          invariant rest == SaveLevel(baseFiles[baseIter..], state.deleted, state.added[i..])
        {
          SaveTakesBase(baseFiles, baseIter, state.deleted, state.added[i..]);
          files, rest := MaybeAddFile(files, state.deleted, baseFiles[baseIter], rest);
          baseIter := baseIter + 1;
        }
        SaveTakesAdded(baseFiles[baseIter..], state.deleted, state.added, i);
        files, rest := MaybeAddFile(files, state.deleted, state.added[i], rest);
      }
      while baseIter < |baseFiles|
        invariant baseIter <= |baseFiles| && files + rest == all
        invariant rest == SaveLevel(baseFiles[baseIter..], state.deleted, [])
      {
        SaveTakesBase(baseFiles, baseIter, state.deleted, []);
        files, rest := MaybeAddFile(files, state.deleted, baseFiles[baseIter], rest);
        baseIter := baseIter + 1;
      }
    }

    /** Adds `f` unless it is deleted; `rest` is what remains to be added, starting with `f`. */
    static method MaybeAddFile(files: seq<File<C>>, deleted: set<nat>, f: File<C>, ghost rest: seq<File<C>>)
      returns (r: seq<File<C>>, ghost left: seq<File<C>>)
      requires f.number !in deleted ==> rest != [] && rest[0] == f
      ensures r == files + if f.number in deleted then [] else [f]
      ensures left == if f.number in deleted then rest else rest[1..]
      ensures r + left == files + rest
    {
      r, left := files, rest;
      if f.number !in deleted {
        r, left := r + [f], rest[1..];
      }
    }
  }
}
