/**
 * Replaying a manifest: applying all its edits to one builder, as VersionSet::Recover does, against applying each edit
 * to a version in turn, as LogAndApply did when it wrote them (db/version_set.cc).
 */
module Manifests {
  import opened Wrappers
  import opened InternalKeys
  import opened Files
  import opened VersionOrder
  import V = Versions

  type Edits<C> = seq<V.VersionEdit<C>>

  function NoFiles<C>(): V.LevelState<C> { V.LevelState({}, []) }

  /** The builder's state for a level after all edits. */
  function ApplyAll<C>(edits: Edits<C>, level: nat): V.LevelState<C> {
    if edits == [] then NoFiles()
    else V.ApplyToLevel(ApplyAll(edits[..|edits| - 1], level), edits[|edits| - 1], level)
  }

  /** One builder over an empty version. */
  function OneBuilder<C>(edits: Edits<C>, level: nat): seq<File<C>> {
    var s := ApplyAll(edits, level);
    V.SaveLevel([], s.deleted, s.added)
  }

  /** One edit applied to a version. */
  function Applied<C>(files: seq<File<C>>, edit: V.VersionEdit<C>, level: nat): seq<File<C>> {
    var s := V.ApplyToLevel(NoFiles(), edit, level);
    V.SaveLevel(files, s.deleted, s.added)
  }

  /** The edits applied in turn. */
  function InTurn<C>(files: seq<File<C>>, edits: Edits<C>, level: nat): seq<File<C>> {
    if edits == [] then files
    else Applied(InTurn(files, edits[..|edits| - 1], level), edits[|edits| - 1], level)
  }

  /** Every file the edits add to the level. */
  function Added<C>(edits: Edits<C>, level: nat): seq<File<C>> {
    if edits == [] then []
    else Added(edits[..|edits| - 1], level) + V.NewAt(edits[|edits| - 1].newFiles, level)
  }

  /** A file number determines the file. */
  ghost predicate Named<C>(files: seq<File<C>>) {
    forall f, g :: f in files && g in files && f.number == g.number ==> f == g
  }

  lemma NamedPart<C(!new)>(part: seq<File<C>>, files: seq<File<C>>)
    requires Named(files) && forall f :: f in part ==> f in files
    ensures Named(part) && Identified(part)
  {
  }

  lemma NumbersAre<C(!new)>(files: seq<File<C>>, n: nat)
    ensures n in V.Numbers(files) <==> exists f :: f in files && f.number == n
  {
    if n in V.Numbers(files) {
      var i :| 0 <= i < |files| && files[i].number == n;
      assert files[i] in files;
    }
    if f :| f in files && f.number == n {
      var i :| 0 <= i < |files| && files[i] == f;
      assert files[i].number == n;
    }
  }

  /** What the builder has added so far, in order and without repetition. */
  lemma {:induction false} AddedInOrder<C(!new)>(edits: Edits<C>, level: nat)
    requires Named(Added(edits, level))
    ensures V.StrictlyOrdered(ApplyAll(edits, level).added)
    ensures forall f :: f in ApplyAll(edits, level).added <==> f in Added(edits, level)
  {
    if edits != [] {
      var front, last := edits[..|edits| - 1], V.NewAt(edits[|edits| - 1].newFiles, level);
      NamedPart(Added(front, level), Added(edits, level));
      AddedInOrder(front, level);
      var before := ApplyAll(front, level).added;
      NamedPart(before + last, Added(edits, level));
      InsertAllOrdered(before, last);
    }
  }

  /** The files one edit adds, in order. */
  lemma NewInOrder<C(!new)>(edit: V.VersionEdit<C>, level: nat)
    requires Named(V.NewAt(edit.newFiles, level))
    ensures var added := V.ApplyToLevel(NoFiles<C>(), edit, level).added;
            V.StrictlyOrdered(added) && forall f :: f in added <==> f in V.NewAt(edit.newFiles, level)
  {
    var files := V.NewAt(edit.newFiles, level);
    assert [] + files == files;
    NamedPart([] + files, files);
    InsertAllOrdered([], files);
  }

  /** The numbers an edit takes out of a level: deleted and not added again. */
  function Gone<C>(edit: V.VersionEdit<C>, level: nat): set<nat> {
    V.DeletedAt(edit.deletedFiles, level) - V.Numbers(V.NewAt(edit.newFiles, level))
  }

  /** How often a file is in a version after an edit. */
  lemma AppliedCounts<C(!new)>(files: seq<File<C>>, edit: V.VersionEdit<C>, level: nat)
    requires V.Ordered(files) && Named(V.NewAt(edit.newFiles, level))
    ensures V.Ordered(Applied(files, edit, level))
    ensures forall f :: multiset(Applied(files, edit, level))[f] ==
                        if f.number in Gone(edit, level) then 0
                        else multiset(files)[f] + if f in V.NewAt(edit.newFiles, level) then 1 else 0
  {
    var s := V.ApplyToLevel(NoFiles<C>(), edit, level);
    NewInOrder(edit, level);
    StrictlyOrderedCounts(s.added);
    SaveLevelContents(files, s.deleted, s.added);
    assert s.deleted == Gone(edit, level);
  }

  lemma OneBuilderCounts<C(!new)>(edits: Edits<C>, level: nat)
    requires Named(Added(edits, level))
    ensures V.Ordered(OneBuilder(edits, level))
    ensures forall f :: multiset(OneBuilder(edits, level))[f] ==
                        if f in Added(edits, level) && f.number !in ApplyAll(edits, level).deleted then 1 else 0
  {
    var s := ApplyAll(edits, level);
    AddedInOrder(edits, level);
    StrictlyOrderedCounts(s.added);
    SaveLevelContents([], s.deleted, s.added);
  }

  lemma InSeq<C(!new)>(files: seq<File<C>>, f: File<C>)
    ensures f in files <==> multiset(files)[f] > 0
  {
    assert f in files <==> f in multiset(files);
  }

  /** The files live in the version are those the builder has added and not deleted since. */
  lemma {:induction false} LiveIsAddedNotDeleted<C(!new)>(edits: Edits<C>, level: nat)
    requires Named(Added(edits, level))
    ensures V.Ordered(InTurn([], edits, level))
    ensures forall f :: f in InTurn([], edits, level) <==>
                        f in Added(edits, level) && f.number !in ApplyAll(edits, level).deleted
  {
    if edits != [] {
      var front, edit := edits[..|edits| - 1], edits[|edits| - 1];
      var files := V.NewAt(edit.newFiles, level);
      NamedPart(Added(front, level), Added(edits, level));
      NamedPart(files, Added(edits, level));
      LiveIsAddedNotDeleted(front, level);
      AppliedCounts(InTurn([], front, level), edit, level);
      forall f
        ensures f in InTurn([], edits, level) <==>
                f in Added(edits, level) && f.number !in ApplyAll(edits, level).deleted
      {
        LiveStep(edits, level, f);
      }
    }
  }

  lemma LiveStep<C(!new)>(edits: Edits<C>, level: nat, f: File<C>)
    requires edits != [] && Named(Added(edits, level))
    requires var front, edit := edits[..|edits| - 1], edits[|edits| - 1];
             var live := InTurn([], front, level);
             && (f in live <==> f in Added(front, level) && f.number !in ApplyAll(front, level).deleted)
             && multiset(Applied(live, edit, level))[f] ==
                if f.number in Gone(edit, level) then 0
                else multiset(live)[f] + if f in V.NewAt(edit.newFiles, level) then 1 else 0
    ensures f in InTurn([], edits, level) <==>
            f in Added(edits, level) && f.number !in ApplyAll(edits, level).deleted
  {
    var front, edit := edits[..|edits| - 1], edits[|edits| - 1];
    var files := V.NewAt(edit.newFiles, level);
    InSeq(InTurn([], edits, level), f);
    InSeq(InTurn([], front, level), f);
    NumbersAre(files, f.number);
    if f in Added(edits, level) && f.number in V.Numbers(files) {
      var g :| g in files && g.number == f.number;
      assert g in Added(edits, level);
    }
  }

  ghost predicate NoneTwice<C(!new)>(files: seq<File<C>>) {
    forall f :: multiset(files)[f] <= 1
  }

  /**
   * One builder for all edits gives the same level as applying them in turn exactly if no file was added again while
   * it was there.
   */
  lemma ReplayAgrees<C(!new)>(edits: Edits<C>, level: nat)
    requires Named(Added(edits, level))
    ensures OneBuilder(edits, level) == InTurn([], edits, level) <==> NoneTwice(InTurn([], edits, level))
  {
    hide Added, ApplyAll, OneBuilder, InTurn, V.Ordered, Named;
    var one, turn := OneBuilder(edits, level), InTurn([], edits, level);
    OneBuilderCounts(edits, level);
    LiveIsAddedNotDeleted(edits, level);
    if NoneTwice(turn) {
      forall f
        ensures multiset(one)[f] == multiset(turn)[f]
      {
        InSeq(turn, f);
      }
      NamedMembers(one, edits, level);
      OrderIsCanonical(one, turn);
    }
  }

  lemma NamedMembers<C(!new)>(files: seq<File<C>>, edits: Edits<C>, level: nat)
    requires Named(Added(edits, level)) && forall f :: multiset(files)[f] > 0 ==> f in Added(edits, level)
    ensures Identified(files)
  {
    forall f | f in files
      ensures f in Added(edits, level)
    {
      InSeq(files, f);
    }
    NamedPart(files, Added(edits, level));
  }

  /** The edit adds no file that is in the level already. */
  ghost predicate AddsOnlyNew<C>(live: seq<File<C>>, edit: V.VersionEdit<C>, level: nat) {
    forall f :: f in V.NewAt(edit.newFiles, level) ==> f !in live
  }

  /** What a caller can check, edit by edit. */
  ghost predicate AllAddOnlyNew<C>(files: seq<File<C>>, edits: Edits<C>, level: nat) {
    forall i :: 0 <= i < |edits| ==> AddsOnlyNew(InTurn(files, edits[..i], level), edits[i], level)
  }

  lemma TwiceStep<C(!new)>(files: seq<File<C>>, edit: V.VersionEdit<C>, level: nat)
    requires V.Ordered(files) && NoneTwice(files) && Named(V.NewAt(edit.newFiles, level))
    ensures NoneTwice(Applied(files, edit, level)) <==> AddsOnlyNew(files, edit, level)
  {
    var added := V.NewAt(edit.newFiles, level);
    AppliedCounts(files, edit, level);
    forall f
      ensures f in files <==> multiset(files)[f] == 1
      ensures f in added ==> f.number !in Gone(edit, level)
    {
      InSeq(files, f);
      NumbersAre(added, f.number);
    }
    if f :| f in added && f in files {
      assert multiset(Applied(files, edit, level))[f] == 2;
    }
  }

  lemma PrefixNamed<C(!new)>(edits: Edits<C>, i: nat, level: nat)
    requires Named(Added(edits, level)) && i < |edits|
    ensures Named(Added(edits[..i], level)) && Named(Added(edits[..i + 1], level))
    ensures Named(V.NewAt(edits[i].newFiles, level))
    ensures InTurn([], edits[..i + 1], level) == Applied(InTurn([], edits[..i], level), edits[i], level)
  {
    AddedPrefix(edits, i, level);
    AddedPrefix(edits, i + 1, level);
    assert edits[..i + 1][..i] == edits[..i];
    NamedPart(Added(edits[..i + 1], level), Added(edits, level));
    NamedPart(Added(edits[..i], level), Added(edits, level));
    NamedPart(V.NewAt(edits[i].newFiles, level), Added(edits[..i + 1], level));
  }

  lemma {:induction false} AddedPrefix<C(!new)>(edits: Edits<C>, i: nat, level: nat)
    requires i <= |edits|
    ensures forall f :: f in Added(edits[..i], level) ==> f in Added(edits, level)
    decreases |edits|
  {
    if i == |edits| {
      assert edits[..i] == edits;
    } else {
      AddedPrefix(edits[..|edits| - 1], i, level);
      assert edits[..|edits| - 1][..i] == edits[..i];
    }
  }

  lemma NoneIsOnce<C(!new)>()
    ensures NoneTwice<C>([])
  {
  }

  lemma {:induction false} OnlyNewNeverTwice<C(!new)>(edits: Edits<C>, i: nat, level: nat)
    requires Named(Added(edits, level)) && AllAddOnlyNew([], edits, level) && i <= |edits|
    ensures NoneTwice(InTurn([], edits[..i], level))
  {
    hide Named, NoneTwice, Applied, Added, AddsOnlyNew, V.Ordered;
    if i == 0 {
      NoneIsOnce<C>();
    } else {
      OnlyNewNeverTwice(edits, i - 1, level);
      PrefixNamed(edits, i - 1, level);
      LiveIsAddedNotDeleted(edits[..i - 1], level);
      TwiceStep(InTurn([], edits[..i - 1], level), edits[i - 1], level);
    }
  }

  /** Replay agrees after every prefix of the edits exactly if every edit adds only files the level does not hold. */
  lemma ReplayAgreesThroughout<C(!new)>(edits: Edits<C>, level: nat)
    requires Named(Added(edits, level))
    ensures (forall i :: 0 <= i <= |edits| ==> OneBuilder(edits[..i], level) == InTurn([], edits[..i], level))
            <==> AllAddOnlyNew([], edits, level)
  {
    if AllAddOnlyNew([], edits, level) {
      forall i: nat | i <= |edits|
        ensures OneBuilder(edits[..i], level) == InTurn([], edits[..i], level)
      {
        OnlyNewNeverTwice(edits, i, level);
        AddedPrefix(edits, i, level);
        NamedPart(Added(edits[..i], level), Added(edits, level));
        ReplayAgrees(edits[..i], level);
      }
    } else {
      var i: nat :| i < |edits| && !AddsOnlyNew(InTurn([], edits[..i], level), edits[i], level);
      PrefixNamed(edits, i, level);
      LiveIsAddedNotDeleted(edits[..i], level);
      ReplayAgrees(edits[..i], level);
      ReplayAgrees(edits[..i + 1], level);
      if NoneTwice(InTurn([], edits[..i], level)) {
        TwiceStep(InTurn([], edits[..i], level), edits[i], level);
      }
    }
  }

  /** A file added a second time while it is there: applied in turn the level holds it twice, replayed only once. */
  lemma ReplayCanDiffer() returns (edits: Edits<()>)
    ensures Named(Added(edits, 0)) && |OneBuilder(edits, 0)| == 1 && |InTurn([], edits, 0)| == 2
  {
    var key := InternalKey(0.0, 1, Value);
    var f: File<()> := File(1, 0, key, key, ());
    var edit := V.VersionEdit(None, None, None, None, None, [], [], [(0, f)]);
    edits := [edit, edit];
    assert edits[..1] == [edit] && [edit][..0] == [];
    assert V.NewAt([(0, f)], 0) == [f] by { assert [(0, f)][..0] == []; }
    assert Added([edit], 0) == Added([], 0) + [f] == [f];
    assert Added(edits, 0) == Added([edit], 0) + [f] == [f, f];
    var s1, s2 := ApplyAll([edit], 0), ApplyAll(edits, 0);
    assert V.Numbers([f]) == {1} by { assert [f][0].number == 1; }
    assert f.number !in s1.deleted && f.number !in s2.deleted;
    OneFileInserted(f);
    assert s1 == V.ApplyToLevel(ApplyAll([], 0), edit, 0) && s2 == V.ApplyToLevel(s1, edit, 0);
    assert s1.added == [f] && s2.added == [f];
    OneFileSaved(f, s1.deleted);
    OneFileSaved(f, s2.deleted);
    var a := V.ApplyToLevel(NoFiles(), edit, 0);
    OneFileSaved(f, a.deleted);
    assert Applied([], edit, 0) == [f] && Applied([f], edit, 0) == [f, f];
    assert InTurn([], [edit], 0) == Applied(InTurn([], [], 0), edit, 0);
    assert InTurn([], edits, 0) == Applied(InTurn([], [edit], 0), edit, 0);
  }

  lemma OneFileInserted(f: File<()>)
    ensures V.InsertAll([], [f]) == [f] && V.InsertAll([f], [f]) == [f]
  {
    assert [f][..0] == [] && [f][0] == f;
  }

  lemma OneFileSaved(f: File<()>, deleted: set<nat>)
    requires f.number !in deleted
    ensures V.SaveLevel([], deleted, [f]) == [f] && V.SaveLevel([f], deleted, [f]) == [f, f]
  {
    assert [f][1..] == [] && [f, f][1..] == [f];
    assert V.Merge([], [f]) == [f] + V.Merge([], []);
    assert V.Merge([f], [f]) == [f] + V.Merge([], [f]);
    assert V.Keep([f], deleted) == [f];
  }

  // Snapshots

  function FilesAt<C>(level: nat, files: seq<File<C>>): seq<(nat, File<C>)> {
    seq(|files|, i requires 0 <= i < |files| => (level, files[i]))
  }

  /** The files of the first `n` levels, as WriteSnapshot lists them. */
  function SnapshotFiles<C>(levels: seq<seq<File<C>>>, n: nat): seq<(nat, File<C>)>
    requires n <= |levels|
  {
    if n == 0 then [] else SnapshotFiles(levels, n - 1) + FilesAt(n - 1, levels[n - 1])
  }

  function Snapshot<C>(levels: seq<seq<File<C>>>, comparator: Bytes, pointers: seq<(nat,
                       InternalKey)>): V.VersionEdit<C> {
    V.VersionEdit(Some(comparator), None, None, None, None, pointers, [], SnapshotFiles(levels, |levels|))
  }

  lemma {:induction false} NewAtJoins<C(!new)>(a: seq<(nat, File<C>)>, b: seq<(nat, File<C>)>, level: nat)
    ensures V.NewAt(a + b, level) == V.NewAt(a, level) + V.NewAt(b, level)
  {
    if b == [] {
      assert a + b == a;
    } else {
      NewAtJoins(a, b[..|b| - 1], level);
      assert (a + b)[..|a + b| - 1] == a + b[..|b| - 1];
    }
  }

  lemma {:induction false} NewAtLevel<C(!new)>(l: nat, files: seq<File<C>>, level: nat)
    ensures V.NewAt(FilesAt(l, files), level) == if l == level then files else []
  {
    if files != [] {
      var front := files[..|files| - 1];
      NewAtLevel(l, front, level);
      assert FilesAt(l, files)[..|files| - 1] == FilesAt(l, front);
      assert files == front + [files[|files| - 1]];
    }
  }

  lemma NothingAt<C(!new)>(levels: seq<seq<File<C>>>, level: nat)
    ensures V.NewAt(SnapshotFiles(levels, 0), level) == []
  {
  }

  lemma {:induction false} SnapshotAt<C(!new)>(levels: seq<seq<File<C>>>, n: nat, level: nat)
    requires n <= |levels|
    ensures V.NewAt(SnapshotFiles(levels, n), level) == if level < n then levels[level] else []
  {
    hide V.NewAt, FilesAt;
    if n == 0 {
      NothingAt(levels, level);
    } else {
      SnapshotAt(levels, n - 1, level);
      NewAtJoins(SnapshotFiles(levels, n - 1), FilesAt(n - 1, levels[n - 1]), level);
      NewAtLevel(n - 1, levels[n - 1], level);
    }
  }

  /** A snapshot applied to an empty version gives the version back. */
  lemma SnapshotRestores<C(!new)>(levels: seq<seq<File<C>>>, comparator: Bytes, pointers: seq<(nat, InternalKey)>,
                           level: nat)
    requires level < |levels| && V.StrictlyOrdered(levels[level]) && Named(levels[level])
    ensures Applied([], Snapshot(levels, comparator, pointers), level) == levels[level]
  {
    var edit := Snapshot(levels, comparator, pointers);
    var files := levels[level];
    SnapshotAt(levels, |levels|, level);
    NothingGone(edit, level);
    FilesRestored(files, edit, level);
  }

  lemma NothingGone<C>(edit: V.VersionEdit<C>, level: nat)
    requires edit.deletedFiles == []
    ensures Gone(edit, level) == {}
  {
    assert V.DeletedAt([], level) == {};
  }

  lemma FilesRestored<C(!new)>(files: seq<File<C>>, edit: V.VersionEdit<C>, level: nat)
    requires V.StrictlyOrdered(files) && Named(files) && V.NewAt(edit.newFiles, level) == files
    requires Gone(edit, level) == {}
    ensures Applied([], edit, level) == files
  {
    hide Applied;
    var result := Applied([], edit, level);
    AppliedCounts([], edit, level);
    StrictlyOrderedCounts(files);
    NamedPart(files, files);
    forall f
      ensures multiset(files)[f] == multiset(result)[f]
    {
    }
    OrderIsCanonical(files, result);
  }

  lemma {:induction false} InTurnJoins<C(!new)>(files: seq<File<C>>, a: Edits<C>, b: Edits<C>, level: nat)
    ensures InTurn(files, a + b, level) == InTurn(InTurn(files, a, level), b, level)
  {
    if b == [] {
      assert a + b == a;
    } else {
      InTurnJoins(files, a, b[..|b| - 1], level);
      assert (a + b)[..|a + b| - 1] == a + b[..|b| - 1];
    }
  }

  /**
   * A manifest is a snapshot followed by edits. Replaying it through one builder gives the version that applying the
   * edits in turn to the version of the snapshot gives.
   */
  lemma ManifestReplays<C(!new)>(levels: seq<seq<File<C>>>, comparator: Bytes, pointers: seq<(nat, InternalKey)>,
                                 edits: Edits<C>, level: nat)
    requires level < |levels| && V.StrictlyOrdered(levels[level])
    requires Named(Added([Snapshot(levels, comparator, pointers)] + edits, level))
    requires AllAddOnlyNew(levels[level], edits, level)
    ensures OneBuilder([Snapshot(levels, comparator, pointers)] + edits, level) == InTurn(levels[level], edits, level)
  {
    hide InTurn, OneBuilder, Added, Applied, AddsOnlyNew, Snapshot;
    var snapshot := Snapshot(levels, comparator, pointers);
    var all := [snapshot] + edits;
    LevelNamed(levels, comparator, pointers, edits, level);
    SnapshotRestores(levels, comparator, pointers, level);
    forall i: nat | i < |all|
      ensures AddsOnlyNew(InTurn([], all[..i], level), all[i], level)
    {
      FromSnapshot(levels[level], snapshot, edits, i, level);
      if i == 0 {
        NothingThere(snapshot, level);
      } else {
        assert AddsOnlyNew(InTurn(levels[level], edits[..i - 1], level), edits[i - 1], level);
      }
    }
    FromSnapshot(levels[level], snapshot, edits, |all|, level);
    ReplayAgreesThroughout(all, level);
    assert all[..|all|] == all && edits[..|edits|] == edits;
  }

  lemma NothingThere<C>(edit: V.VersionEdit<C>, level: nat)
    ensures AddsOnlyNew([], edit, level)
  {
  }

  lemma LevelNamed<C(!new)>(levels: seq<seq<File<C>>>, comparator: Bytes, pointers: seq<(nat, InternalKey)>,
                            edits: Edits<C>, level: nat)
    requires level < |levels| && Named(Added([Snapshot(levels, comparator, pointers)] + edits, level))
    ensures Named(levels[level])
  {
    var all := [Snapshot(levels, comparator, pointers)] + edits;
    PrefixNamed(all, 0, level);
    SnapshotAt(levels, |levels|, level);
  }

  lemma FromSnapshot<C(!new)>(files: seq<File<C>>, snapshot: V.VersionEdit<C>, edits: Edits<C>, i: nat, level: nat)
    requires Applied([], snapshot, level) == files && i <= 1 + |edits|
    ensures var all := [snapshot] + edits;
            InTurn([], all[..i], level) == if i == 0 then [] else InTurn(files, edits[..i - 1], level)
  {
    var all := [snapshot] + edits;
    if i > 0 {
      assert all[..i] == [snapshot] + edits[..i - 1];
      InTurnJoins([], [snapshot], edits[..i - 1], level);
      assert [snapshot][..0] == [];
      assert InTurn([], [snapshot], level) == Applied(InTurn<C>([], [], level), snapshot, level);
    }
  }
}
