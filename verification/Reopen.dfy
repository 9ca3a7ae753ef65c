/**
 * Opening a database after a crash: the version from the manifest, and the logs written since, replayed into tables of
 * level 0 (db/db_impl.cc, DB::Open, Recover and RecoverLogFile).
 */
module Reopening {
  import opened Wrappers
  import opened Sequences
  import opened InternalKeys
  import opened Files
  import opened Compactions
  import opened Lookup
  import opened Rewrites
  import opened KeyCoding
  import opened LogReading
  import opened WriteBatches
  import opened Recovery
  import opened Database
  import opened DatabaseInvariant
  import opened DatabaseReads
  import opened DatabaseEdits
  import opened DatabaseManifest
  import opened DatabaseImpl
  import opened ManifestCodec
  import opened ManifestRecovery
  import opened VersionOrder
  import opened Journals
  import M = Manifests
  import V = Versions

  // Replayed updates become entries

  function OpOf(u: Update, keys: Places): Op {
    match u
    case Put(key, value) => Op(Value, keys.place(key), value)
    case Delete(key) => Op(Deletion, keys.place(key), [])
  }

  function Ops(updates: seq<Update>, keys: Places): (r: seq<Op>)
    ensures |r| == |updates|
  {
    seq(|updates|, i requires 0 <= i < |updates| => OpOf(updates[i], keys))
  }

  /** The memtable that some updates are inserted into one by one. */
  function MemOf(added: seq<Added>, keys: Places): seq<Entry> {
    if added == [] then []
    else
      var last := added[|added| - 1];
      AddEntry(MemOf(added[..|added| - 1], keys), EntryOf(OpOf(last.update, keys), last.seqno))
  }

  lemma {:induction false} MemIsAddSome(first: nat, updates: seq<Update>, n: nat, keys: Places)
    requires n <= |updates|
    ensures MemOf(Numbered(first, updates)[..n], keys) == AddSome([], Ops(updates, keys), n, first)
  {
    hide AddEntry;
    if n > 0 {
      MemIsAddSome(first, updates, n - 1, keys);
      var added := Numbered(first, updates);
      assert added[..n][..n - 1] == added[..n - 1];
      assert added[..n][n - 1] == Added(first + n - 1, updates[n - 1]);
    }
  }

  lemma MemIsAddAll(first: nat, updates: seq<Update>, keys: Places)
    ensures MemOf(Numbered(first, updates), keys) == AddAll([], Ops(updates, keys), first)
  {
    MemIsAddSome(first, updates, |updates|, keys);
    assert Numbered(first, updates)[..|updates|] == Numbered(first, updates);
  }

  // Tables of level 0, one after the other and all at once

  /** The tables of replayed memtables; an empty memtable makes no table. */
  function TablesOf(parts: seq<seq<Added>>, numbers: seq<nat>, sizes: nat -> nat, keys: Places): seq<Table>
    requires |parts| == |numbers|
  {
    if parts == [] then []
    else
      var n := |parts| - 1;
      var run := MemOf(parts[n], keys);
      TablesOf(parts[..n], numbers[..n], sizes, keys)
      + if run == [] then [] else [TableOf(run, numbers[n], sizes(numbers[n]))]
  }

  /** New numbers in the order of their use. */
  ghost predicate Fresh(numbers: seq<nat>, from: nat, to: nat) {
    && (forall i, j :: 0 <= i < j < |numbers| ==> numbers[i] < numbers[j])
    && forall i :: 0 <= i < |numbers| ==> from <= numbers[i] < to
  }

  /** Adding two lots of files in turn is adding them together. */
  lemma InTurnOrTogether(level: seq<Table>, a: seq<Table>, b: seq<Table>)
    requires V.Ordered(level) && M.Named(level + a + b) && (forall f :: f in b ==> f !in a)
    ensures V.SaveLevel(level, {}, V.InsertAll([], a + b)) ==
            V.SaveLevel(V.SaveLevel(level, {}, V.InsertAll([], a)), {}, V.InsertAll([], b))
  {
    hide V.Ordered, M.Named, V.SaveLevel, V.InsertAll, AddingEdit;
    AddedByEdit(level, a + b);
    AddedByEdit(level, a);
    var mid := M.Applied(level, AddingEdit(a), 0);
    AddedByEdit(mid, b);
    NamedParts(level, a, b);
    M.AppliedCounts(level, AddingEdit(a + b), 0);
    M.AppliedCounts(level, AddingEdit(a), 0);
    M.AppliedCounts(mid, AddingEdit(b), 0);
    var x, y := M.Applied(level, AddingEdit(a + b), 0), M.Applied(mid, AddingEdit(b), 0);
    forall f
      ensures multiset(x)[f] == multiset(y)[f]
    {
    }
    forall f | f in x
      ensures f in level + a + b
    {
      M.InSeq(x, f);
      M.InSeq(level, f);
    }
    M.NamedPart(x, level + a + b);
    OrderIsCanonical(x, y);
  }

  lemma NamedParts(level: seq<Table>, a: seq<Table>, b: seq<Table>)
    requires M.Named(level + a + b)
    ensures M.Named(a) && M.Named(b) && M.Named(a + b)
  {
    M.NamedPart(a, level + a + b);
    M.NamedPart(b, level + a + b);
    M.NamedPart(a + b, level + a + b);
  }

  // The database with replayed memtables in level 0

  /** The numbers of files and logs may be chosen anew, as long as those of files stay below the next one. */
  lemma OtherNumbers(db: Db, next: nat, logs: LogNumbers)
    requires db.Inv() && forall l, f :: 0 <= l < |db.levels| && f in db.levels[l] ==> f.number < next
    ensures var t := db.(nextFileNumber := next, logs := logs); t.Inv() && t.Contents() == db.Contents()
  {
    var t := db.(nextFileNumber := next, logs := logs);
    assert t.Contents() == db.Contents();
  }

  ghost predicate Empty(db: Db) { db.mem == [] && db.imm.None? && db.snapshots == [] }

  /** The database with the operations of one more memtable, as a table if there are any. */
  function WithTable(db: Db, run: seq<Entry>, count: nat, number: nat, size: nat): Db
    requires db.levels != []
  {
    db.(levels := if run == [] then db.levels else AddedTo(db.levels, [TableOf(run, number, size)]),
        lastSequence := db.lastSequence + count, nextFileNumber := number + 1)
  }

  /** It is as if the operations had been written and flushed. */
  lemma OneTable(db: Db, ops: seq<Op>, number: nat, size: nat)
    requires db.Inv() && Empty(db) && db.nextFileNumber <= number && db.lastSequence + |ops| < MAX_SEQUENCE
    ensures db.levels != []
    ensures var t := WithTable(db, AddAll([], ops, db.lastSequence + 1), |ops|, number, size);
            t.Inv() && Empty(t) && t.Contents() == db.Contents() + OpEntries(ops, db.lastSequence + 1)
  {
    hide Db.Inv, Db.Contents, AddSome, OpEntries, WithTable;
    NumbersStayBelow(db);
    LevelsStay(db);
    OtherNumbers(db, number, db.logs);
    var a := db.(nextFileNumber := number);
    WriteKeepsInv(a, ops);
    FlushedAs(Apply(a, Write(ops)), number, size, db.logs);
    WithWritten(db, ops, number, size);
  }

  lemma WithWritten(db: Db, ops: seq<Op>, number: nat, size: nat)
    requires Empty(db) && db.levels != [] && db.lastSequence + |ops| < MAX_SEQUENCE
    ensures var a := db.(nextFileNumber := number);
            var b := Apply(a, Write(ops));
            WithTable(b.(mem := []), b.mem, 0, number, size)
            == WithTable(db, AddAll([], ops, db.lastSequence + 1), |ops|, number, size)
  {
    hide AddSome, AddedTo;
  }

  /** The memtable is switched and flushed to level 0. */
  lemma FlushedAs(b: Db, number: nat, size: nat, logs: LogNumbers)
    requires b.Inv() && b.imm.None? && b.snapshots == [] && b.nextFileNumber == number && b.logs == logs
    ensures b.levels != []
    ensures var t := WithTable(b.(mem := []), b.mem, 0, number, size);
            t.Inv() && Empty(t) && t.Contents() == b.Contents()
  {
    hide Db.Inv, Db.Contents, Database.Added;
    StepKeepsInv(b, SwitchMemTable);
    SameContents(b, SwitchMemTable);
    NumbersStayBelow(b);
    var c := Apply(b, SwitchMemTable);
    OtherNumbers(c, number, logs);
    var d := c.(nextFileNumber := number, logs := logs);
    LevelsStay(d);
    FlushKeepsInv(d, 0, size);
    var e := Apply(d, Flush(0, size));
    NumbersStayBelow(e);
    OtherNumbers(e, number + 1, logs);
    FlushedIs(d, size);
  }

  lemma NumbersStayBelow(db: Db)
    requires db.Inv()
    ensures forall l, f :: 0 <= l < |db.levels| && f in db.levels[l] ==> f.number < db.nextFileNumber
  {
  }

  lemma FlushedIs(d: Db, size: nat)
    requires d.imm.Some? && d.mem == [] && Allowed(d, Flush(0, size)) && d.levels != []
    ensures Apply(d, Flush(0, size)).(logs := d.logs) == WithTable(d.(imm := None), d.imm.value, 0, d.nextFileNumber, size)
  {
  }

  /** The database with one table after the other. */
  function Rebuilt(db: Db, parts: seq<seq<Added>>, numbers: seq<nat>, sizes: nat -> nat, keys: Places): (t: Db)
    requires |parts| == |numbers| && db.levels != []
    ensures |t.levels| == |db.levels|
  {
    if parts == [] then db
    else
      var n := |parts| - 1;
      WithTable(Rebuilt(db, parts[..n], numbers[..n], sizes, keys), MemOf(parts[n], keys), |parts[n]|, numbers[n],
                sizes(numbers[n]))
  }

  /** Parts of updates numbered one after the other are numbered so themselves. */
  lemma NumberedParts(front: seq<Added>, last: seq<Added>, first: nat, updates: seq<Update>)
    requires front + last == Numbered(first, updates)
    ensures |front| <= |updates| && front == Numbered(first, updates[..|front|])
    ensures last == Numbered(first + |front|, updates[|front|..])
  {
    var all := Numbered(first, updates);
    assert forall i :: 0 <= i < |front| ==> front[i] == all[i];
    assert forall i :: 0 <= i < |last| ==> last[i] == all[|front| + i];
  }

  lemma FewerNumbers(numbers: seq<nat>, from: nat, to: nat)
    requires Fresh(numbers, from, to) && numbers != []
    ensures Fresh(numbers[..|numbers| - 1], from, numbers[|numbers| - 1])
    ensures from <= numbers[|numbers| - 1] < to
  {
  }

  /** Replaying into tables keeps the database in order and adds exactly the entries replayed. */
  lemma {:induction false} RebuiltIsInOrder(db: Db, parts: seq<seq<Added>>, numbers: seq<nat>, sizes: nat -> nat,
                                            keys: Places, updates: seq<Update>, to: nat)
    requires db.Inv() && Empty(db) && |parts| == |numbers| && Fresh(numbers, db.nextFileNumber, to)
    requires db.nextFileNumber <= to
    requires Flatten(parts) == Numbered(db.lastSequence + 1, updates) && db.lastSequence + |updates| < MAX_SEQUENCE
    ensures db.levels != []
    ensures var t := Rebuilt(db, parts, numbers, sizes, keys);
            && t.Inv() && Empty(t) && t.Contents() == db.Contents() + OpEntries(Ops(updates, keys), db.lastSequence + 1)
            && t.lastSequence == db.lastSequence + |updates| && db.nextFileNumber <= t.nextFileNumber <= to
    decreases |parts|
  {
    hide Db.Inv, Db.Contents, OpEntries, WithTable, AddSome, MemOf;
    LevelsStay(db);
    if parts == [] {
      assert updates == [] && Ops(updates, keys) == [];
      NoOpEntries(db.lastSequence + 1);
    } else {
      var n := |parts| - 1;
      var front, last := Flatten(parts[..n]), parts[n];
      NumberedParts(front, last, db.lastSequence + 1, updates);
      FewerNumbers(numbers, db.nextFileNumber, to);
      RebuiltIsInOrder(db, parts[..n], numbers[..n], sizes, keys, updates[..|front|], numbers[n]);
      var t, rest := Rebuilt(db, parts[..n], numbers[..n], sizes, keys), updates[|front|..];
      MemIsAddAll(t.lastSequence + 1, rest, keys);
      OneTable(t, Ops(rest, keys), numbers[n], sizes(numbers[n]));
      assert Ops(updates, keys) == Ops(updates[..|front|], keys) + Ops(rest, keys);
      OpEntriesJoin(Ops(updates[..|front|], keys), Ops(rest, keys), db.lastSequence + 1);
      WithTableNumbers(t, MemOf(last, keys), |last|, numbers[n], sizes(numbers[n]));
    }
  }

  lemma NoOpEntries(first: nat)
    ensures OpEntries([], first) == {}
  {
  }

  lemma WithTableNumbers(db: Db, run: seq<Entry>, count: nat, number: nat, size: nat)
    requires db.levels != []
    ensures var t := WithTable(db, run, count, number, size);
            t.lastSequence == db.lastSequence + count && t.nextFileNumber == number + 1
  {
  }

  lemma LevelZero(db: Db)
    requires db.Inv()
    ensures db.levels != [] && V.Ordered(db.levels[0]) && M.Named(db.levels[0])
  {
    assert V.StrictlyOrdered(db.levels[0]) && DistinctNumbers(db.levels[0]);
  }

  lemma {:induction false} TablesAreNamed(parts: seq<seq<Added>>, numbers: seq<nat>, sizes: nat -> nat, keys: Places,
                                          from: nat, to: nat)
    requires |parts| == |numbers| && Fresh(numbers, from, to)
    ensures M.Named(TablesOf(parts, numbers, sizes, keys))
    ensures forall f :: f in TablesOf(parts, numbers, sizes, keys) ==> from <= f.number < to
    decreases |parts|
  {
    hide MemOf;
    if parts != [] {
      var n := |parts| - 1;
      FewerNumbers(numbers, from, to);
      TablesAreNamed(parts[..n], numbers[..n], sizes, keys, from, numbers[n]);
    }
  }

  /** All tables added by one edit make the same version as one after the other. */
  lemma {:induction false} RebuiltLevels(db: Db, parts: seq<seq<Added>>, numbers: seq<nat>, sizes: nat -> nat,
                                         keys: Places,
                                         to: nat)
    requires db.Inv() && |parts| == |numbers| && Fresh(numbers, db.nextFileNumber, to)
    ensures db.levels != []
    ensures Rebuilt(db, parts, numbers, sizes, keys).levels == AddedTo(db.levels, TablesOf(parts, numbers, sizes, keys))
    decreases |parts|
  {
    hide Db.Inv, MemOf, V.SaveLevel, V.InsertAll, M.Named, V.Ordered;
    LevelZero(db);
    var level := db.levels[0];
    if parts == [] {
      NothingAdded(level);
      assert db.levels[0 := level] == db.levels;
    } else {
      var n := |parts| - 1;
      FewerNumbers(numbers, db.nextFileNumber, to);
      RebuiltLevels(db, parts[..n], numbers[..n], sizes, keys, numbers[n]);
      var a := TablesOf(parts[..n], numbers[..n], sizes, keys);
      var run := MemOf(parts[n], keys);
      if run != [] {
        var b := [TableOf(run, numbers[n], sizes(numbers[n]))];
        AllNamed(db, parts, numbers, sizes, keys, to);
        assert level + a + b == level + TablesOf(parts, numbers, sizes, keys);
        TablesAreNamed(parts[..n], numbers[..n], sizes, keys, db.nextFileNumber, numbers[n]);
        InTurnOrTogether(level, a, b);
      } else {
        assert a + [] == a;
      }
    }
  }

  lemma AllNamed(db: Db, parts: seq<seq<Added>>, numbers: seq<nat>, sizes: nat -> nat, keys: Places, to: nat)
    requires db.Inv() && db.levels != [] && |parts| == |numbers| && Fresh(numbers, db.nextFileNumber, to)
    ensures M.Named(db.levels[0] + TablesOf(parts, numbers, sizes, keys))
  {
    hide Db.Inv, TablesOf;
    LevelZero(db);
    NumbersStayBelow(db);
    TablesAreNamed(parts, numbers, sizes, keys, db.nextFileNumber, to);
  }

  // The logs to be replayed

  ghost predicate Ascending(numbers: seq<nat>) {
    forall i, j :: 0 <= i < j < |numbers| ==> numbers[i] < numbers[j]
  }

  function InsertNumber(numbers: seq<nat>, n: nat): (r: seq<nat>)
    ensures forall k :: k in r <==> k in numbers || k == n
  {
    if numbers == [] || n < numbers[0] then [n] + numbers
    else
      assert numbers == [numbers[0]] + numbers[1..];
      [numbers[0]] + InsertNumber(numbers[1..], n)
  }

  lemma {:induction false} InsertAscending(numbers: seq<nat>, n: nat)
    requires Ascending(numbers) && n !in numbers
    ensures Ascending(InsertNumber(numbers, n))
  {
    if numbers != [] && numbers[0] < n {
      InsertAscending(numbers[1..], n);
      var rest := InsertNumber(numbers[1..], n);
      forall j | 0 <= j < |rest|
        ensures numbers[0] < rest[j]
      {
        assert rest[j] in rest;
      }
    }
  }

  /** The logs that are still needed, in the order in which they were written. */
  method LogsToReplay(names: seq<nat>, oldest: nat, prev: nat) returns (logs: seq<nat>)
    requires forall i, j :: 0 <= i < j < |names| ==> names[i] != names[j]
    ensures Ascending(logs) && forall n :: n in logs <==> n in names && (n >= oldest || n == prev)
  {
    logs := [];
    for i := 0 to |names|
      invariant Ascending(logs) && forall n :: n in logs <==> n in names[..i] && (n >= oldest || n == prev)
    {
      if names[i] >= oldest || names[i] == prev {
        InsertAscending(logs, names[i]);
        logs := InsertNumber(logs, names[i]);
      }
    }
  }

  // Replaying them

  /** What a log that is read without complaint is replayed to. */
  function ReplayOf(log: Bytes, paranoid: bool): Replayed { Replay(START, ReadAll(log, 0, true).0, paranoid) }

  predicate Replays(log: Bytes, paranoid: bool) {
    (paranoid ==> ReadAll(log, 0, true).1 == []) && ReplayOf(log, paranoid).ok
  }

  function AddedFrom(logs: seq<Bytes>, paranoid: bool): seq<Added> {
    if logs == [] then [] else AddedFrom(logs[..|logs| - 1], paranoid) + ReplayOf(logs[|logs| - 1], paranoid).added
  }

  function Max(a: nat, b: nat): nat { if a < b then b else a }

  /** The largest sequence number met, or `last` if that is larger. */
  function LastFrom(logs: seq<Bytes>, paranoid: bool, last: nat): nat {
    if logs == [] then last
    else Max(LastFrom(logs[..|logs| - 1], paranoid, last), ReplayOf(logs[|logs| - 1], paranoid).maxSequence)
  }

  lemma OneMoreLog(logs: seq<Bytes>, log: Bytes, paranoid: bool, last: nat)
    ensures AddedFrom(logs + [log], paranoid) == AddedFrom(logs, paranoid) + ReplayOf(log, paranoid).added
    ensures LastFrom(logs + [log], paranoid, last) ==
            Max(LastFrom(logs, paranoid, last), ReplayOf(log, paranoid).maxSequence)
  {
    assert (logs + [log])[..|logs|] == logs;
  }

  /** What has been rebuilt: memtables written to tables under new numbers. */
  ghost predicate RebuiltAs(files: seq<Table>, parts: seq<seq<Added>>, numbers: seq<nat>, sizes: nat -> nat, keys: Places,
                            from: nat, to: nat) {
    && |parts| == |numbers| && files == TablesOf(parts, numbers, sizes, keys) && Fresh(numbers, from, to) && from <= to
  }

  /** WriteLevel0Table for the memtables of one log. */
  method WriteTables(ghost parts0: seq<seq<Added>>, more: seq<seq<Added>>, files0: seq<Table>, ghost numbers0: seq<nat>,
                     sizes: nat -> nat, keys: Places, ghost from: nat, next0: nat)
    returns (files: seq<Table>, next: nat, ghost numbers: seq<nat>)
    requires RebuiltAs(files0, parts0, numbers0, sizes, keys, from, next0)
    ensures RebuiltAs(files, parts0 + more, numbers, sizes, keys, from, next) && next0 <= next
  {
    hide RebuiltAs, MemOf;
    files, next, numbers := files0, next0, numbers0;
    assert parts0 + more[..0] == parts0;
    for i := 0 to |more|
      invariant RebuiltAs(files, parts0 + more[..i], numbers, sizes, keys, from, next) && next0 <= next
    {
      assert parts0 + more[..i + 1] == parts0 + more[..i] + [more[i]];
      OneMoreTable(files, parts0 + more[..i], more[i], numbers, next, sizes, keys, from);
      var run := MemOf(more[i], keys);
      if run != [] {
        files := files + [TableOf(run, next, sizes(next))];
      }
      numbers := numbers + [next];
      next := next + 1;
    }
    assert more[..|more|] == more;
  }

  lemma OneMoreTable(files: seq<Table>, parts: seq<seq<Added>>, part: seq<Added>, numbers: seq<nat>, number: nat,
                     sizes: nat -> nat, keys: Places, from: nat)
    requires RebuiltAs(files, parts, numbers, sizes, keys, from, number)
    ensures var run := MemOf(part, keys);
            RebuiltAs(if run == [] then files else files + [TableOf(run, number, sizes(number))],
                      parts + [part], numbers + [number], sizes, keys, from, number + 1)
  {
    hide MemOf;
    assert (parts + [part])[..|parts|] == parts && (numbers + [number])[..|parts|] == numbers;
  }

  function Pick(logs: map<nat, Bytes>, names: seq<nat>): (r: seq<Bytes>)
    requires forall n :: n in names ==> n in logs
    ensures |r| == |names|
  {
    seq(|names|, i requires 0 <= i < |names| => logs[names[i]])
  }

  /** Where the recovery of some logs stands. */
  ghost predicate RecoveredSo(logs: seq<Bytes>, files: seq<Table>, parts: seq<seq<Added>>, numbers: seq<nat>,
                              sizes: nat -> nat, keys: Places, paranoid: bool, from: nat, next: nat, last0: nat, last: nat) {
    && RebuiltAs(files, parts, numbers, sizes, keys, from, next) && Flatten(parts) == AddedFrom(logs, paranoid)
    && last == LastFrom(logs, paranoid, last0)
  }

  /** Replays the logs in their order; their own numbers are used up as well. */
  method RecoverLogs(names: seq<nat>, logs: map<nat, Bytes>, keys: Places, paranoid: bool, full: seq<Added> -> bool,
                     sizes: nat -> nat, next0: nat, last0: nat)
    returns (ok: bool, files: seq<Table>, next: nat, last: nat, ghost parts: seq<seq<Added>>, ghost numbers: seq<nat>)
    requires forall n :: n in names ==> n in logs
    ensures ok <==> forall n :: n in names ==> Replays(logs[n], paranoid)
    ensures ok ==> RecoveredSo(Pick(logs, names), files, parts, numbers, sizes, keys, paranoid, next0, next, last0, last)
    ensures ok ==> forall n :: n in names ==> n < next
  {
    hide Replays, RecoveredSo;
    ok, files, next, last, parts, numbers := true, [], next0, last0, [], [];
    assert Pick(logs, names[..0]) == [];
    NothingRecovered(sizes, keys, paranoid, next0, last0);
    for i := 0 to |names|
      invariant ok
      invariant RecoveredSo(Pick(logs, names[..i]), files, parts, numbers, sizes, keys, paranoid, next0, next, last0, last)
      invariant forall n :: n in names[..i] ==> n < next && Replays(logs[n], paranoid)
    {
      ghost var before, now := Pick(logs, names[..i]), Pick(logs, names[..i + 1]);
      assert before + [logs[names[i]]] == now;
      ok, files, next, last, parts, numbers :=
        RecoverOne(before, logs[names[i]], files, parts, numbers, keys, paranoid, full, sizes, next0, next, last0, last);
      if !ok {
        assert names[i] in names;
        return;
      }
      assert RecoveredSo(now, files, parts, numbers, sizes, keys, paranoid, next0, next, last0, last);
      if next <= names[i] {
        MoreFresh(now, files, parts, numbers, sizes, keys, paranoid, next0, next, names[i] + 1, last0, last);
        next := names[i] + 1;
      }
    }
    assert names[..|names|] == names;
  }

  method RecoverOne(ghost before: seq<Bytes>, log: Bytes, files0: seq<Table>, ghost parts0: seq<seq<Added>>,
                    ghost numbers0: seq<nat>, keys: Places, paranoid: bool, full: seq<Added> -> bool, sizes: nat -> nat,
                    ghost from: nat, next0: nat, ghost start: nat, last0: nat)
    returns (ok: bool, files: seq<Table>, next: nat, last: nat, ghost parts: seq<seq<Added>>, ghost numbers: seq<nat>)
    requires RecoveredSo(before, files0, parts0, numbers0, sizes, keys, paranoid, from, next0, start, last0)
    ensures ok <==> Replays(log, paranoid)
    ensures ok ==> next0 <= next
    ensures ok ==> RecoveredSo(before + [log], files, parts, numbers, sizes, keys, paranoid, from, next, start, last)
  {
    hide Replay, ReadAll, TablesOf, Flatten, AddedFrom, LastFrom;
    files, next, last, parts, numbers := files0, next0, last0, parts0, numbers0;
    var r, more, _ := RecoverLogFile(log, paranoid, full, false);
    ok := r.ok;
    if ok {
      OneMoreLog(before, log, paranoid, start);
      FlattenJoins(parts0, more);
      files, next, numbers := WriteTables(parts0, more, files0, numbers0, sizes, keys, from, next0);
      parts := parts0 + more;
      last := Max(last0, r.maxSequence);
    }
  }

  lemma NothingRecovered(sizes: nat -> nat, keys: Places, paranoid: bool, from: nat, last: nat)
    ensures RecoveredSo([], [], [], [], sizes, keys, paranoid, from, from, last, last)
  {
  }

  lemma MoreFresh(logs: seq<Bytes>, files: seq<Table>, parts: seq<seq<Added>>, numbers: seq<nat>, sizes: nat -> nat,
                  keys: Places, paranoid: bool, from: nat, to: nat, later: nat, last0: nat, last: nat)
    requires RecoveredSo(logs, files, parts, numbers, sizes, keys, paranoid, from, to, last0, last) && to <= later
    ensures RecoveredSo(logs, files, parts, numbers, sizes, keys, paranoid, from, later, last0, last)
  {
  }

  // Opening

  /** What is on disk: the contents of tables and the bytes of logs, by their numbers. */
  datatype Disk = Disk(tables: map<nat, seq<Entry>>, logs: map<nat, Bytes>)

  predicate AllThere(levels: seq<Level>, tables: map<nat, seq<Entry>>) {
    forall level :: level in levels ==> forall f :: f in level ==> f.number in tables
  }

  /** The version that has been recovered, with the contents of its tables. */
  function Loaded(levels: seq<Level>, tables: map<nat, seq<Entry>>): (r: seq<seq<Table>>)
    requires AllThere(levels, tables)
    ensures |r| == |levels|
  {
    seq(|levels|, l requires 0 <= l < |levels| =>
      assert levels[l] in levels;
      LoadedLevel(levels[l], tables))
  }

  function LoadedLevel(level: Level, tables: map<nat, seq<Entry>>): (r: seq<Table>)
    requires forall f :: f in level ==> f.number in tables
    ensures |r| == |level|
  {
    seq(|level|, i requires 0 <= i < |level| =>
      assert level[i] in level;
      File(level[i].number, level[i].size, level[i].smallest, level[i].largest, tables[level[i].number]))
  }

  /** The first number that is free when the manifest has been read; one more is used for the new manifest. */
  function FirstFree(r: Recovered): nat
    requires r.Recovered?
  {
    Max(r.nextFileNumber + 1, Max(r.prevLogNumber + 1, r.logNumber + 1))
  }

  /** A database opened from a recovered version and some logs that were replayed. */
  ghost predicate IsOpened(db: Db, manifest: seq<Edit>, r: Recovered, tables: map<nat, seq<Entry>>, logs: seq<Bytes>,
                           parts: seq<seq<Added>>, numbers: seq<nat>, sizes: nat -> nat, keys: Places, paranoid: bool) {
    && r.Recovered? && AllThere(r.levels, tables) && r.levels != [] && |parts| == |numbers|
    && var files := TablesOf(parts, numbers, sizes, keys);
       && Empty(db) && db.levels == AddedTo(Loaded(r.levels, tables), files)
       && RecoveredSo(logs, files, parts, numbers, sizes, keys, paranoid, FirstFree(r), db.logs.file, r.lastSequence,
                      db.lastSequence)
       && db.logs == LogNumbers(db.logs.file, db.logs.file, 0) && db.nextFileNumber == db.logs.file + 1
       && |manifest| == 1
       && exists e: TableEdit :: manifest[0] == BareEdit(e) && e.newFiles == AddingEdit(files).newFiles
                                 && e.deletedFiles == [] && CarriesNumbersOf(e, db)
  }

  /**
   * Opens a database: recovery of the version, replay of the logs still needed, a new log, and the edit with the tables
   * written. It fails if there is no version, if a table of it is missing, or if a log is corrupt.
   */
  method Open(r: Recovered, disk: Disk, names: seq<nat>, keys: Places, paranoid: bool, full: seq<Added> -> bool,
              sizes: nat -> nat)
    returns (impl: DBImpl?, ghost needed: seq<nat>, ghost parts: seq<seq<Added>>, ghost numbers: seq<nat>)
    requires r.Recovered? ==> |r.levels| == NUM_LEVELS
    requires forall i, j :: 0 <= i < j < |names| ==> names[i] != names[j]
    requires forall n :: n in names <==> n in disk.logs
    ensures r.Recovered? ==>
      Ascending(needed) && forall n :: n in needed <==> n in disk.logs && (n >= r.logNumber || n == r.prevLogNumber)
    ensures impl == null <==>
            r.Failed? || !AllThere(r.levels, disk.tables) || exists n :: n in needed && !Replays(disk.logs[n], paranoid)
    ensures impl != null ==>
      && fresh(impl) && r.Recovered?
      && IsOpened(impl.View(), impl.manifest, r, disk.tables, Pick(disk.logs, needed), parts, numbers, sizes, keys, paranoid)
  {
    hide Replays, RecoveredSo, TablesOf, AddedTo, Loaded;
    impl, needed, parts, numbers := null, [], [], [];
    if r.Failed? {
      return;
    }
    var logs := LogsToReplay(names, r.logNumber, r.prevLogNumber);
    needed := logs;
    if !AllThere(r.levels, disk.tables) {
      return;
    }
    var ok, files, next, last;
    ok, files, next, last, parts, numbers := RecoverLogs(logs, disk.logs, keys, paranoid, full, sizes, FirstFree(r),
                                                         r.lastSequence);
    if !ok {
      return;
    }
    impl := new DBImpl();
    Install(impl, r, Loaded(r.levels, disk.tables), files, next, last);
    RebuiltAsTables(Pick(disk.logs, needed), files, parts, numbers, sizes, keys, paranoid, FirstFree(r), next, r.lastSequence,
                    last);
  }

  lemma RebuiltAsTables(logs: seq<Bytes>, files: seq<Table>, parts: seq<seq<Added>>, numbers: seq<nat>, sizes: nat -> nat,
                        keys: Places, paranoid: bool, from: nat, next: nat, last0: nat, last: nat)
    requires RecoveredSo(logs, files, parts, numbers, sizes, keys, paranoid, from, next, last0, last)
    ensures |parts| == |numbers| && files == TablesOf(parts, numbers, sizes, keys)
  {
  }

  /** The object of the database opened: a new log, and the edit that adds the tables. */
  method Install(impl: DBImpl, r: Recovered, levels: seq<seq<Table>>, files: seq<Table>, next: nat, last: nat)
    requires r.Recovered? && |levels| == NUM_LEVELS && Empty(impl.View())
    modifies impl
    ensures Empty(impl.View()) && impl.current == AddedTo(levels, files) && impl.lastSequence == last
    ensures impl.View().logs == LogNumbers(next, next, 0) && impl.nextFileNumber == next + 1
    ensures |impl.manifest| == 1
    ensures exists e: TableEdit :: impl.manifest[0] == BareEdit(e) && e.newFiles == AddingEdit(files).newFiles
                                   && e.deletedFiles == [] && CarriesNumbersOf(e, impl.View())
  {
    impl.current, impl.compactPointer, impl.lastSequence := levels, r.compactPointer, last;
    impl.logNumber, impl.prevLogNumber, impl.manifest := r.logNumber, r.prevLogNumber, [];
    impl.logFileNumber, impl.nextFileNumber := next, next + 1;
    var edit := AddingEdit(files).(prevLogNumber := Some(0), logNumber := Some(next));
    AllAdded(levels, edit, files);
    ghost var stamped := impl.Stamped(edit);
    impl.LogAndApply(edit);
    assert impl.manifest[0] == BareEdit(stamped);
  }

  lemma AllAdded(levels: seq<seq<Table>>, edit: TableEdit, files: seq<Table>)
    requires levels != [] && edit.newFiles == AddingEdit(files).newFiles && edit.deletedFiles == []
    ensures Edited(levels, edit) == AddedTo(levels, files)
  {
    hide V.SaveLevel, V.InsertAll, V.NewAt, M.Applied;
    SameEdited(levels, edit, AddingEdit(files));
    AddedByEdit(levels[0], files);
    forall l | 0 < l < |levels|
      ensures Edited(levels, edit)[l] == levels[l]
    {
      AllNewAt(AddingEdit(files).newFiles, files, 0, l);
      assert V.DeletedAt([], l) == {};
      UntouchedLevel(levels[l], AddingEdit(files), l);
    }
  }

  // What a database opened holds

  /** A database in order of which only the levels are left. */
  lemma OnlyLevels(base: Db, last: nat, next: nat, logs: LogNumbers)
    requires base.Inv() && last < MAX_SEQUENCE && forall e :: e in EntriesFrom(base.levels, 0) ==> e.key.seqno <= last
    requires forall l, f :: 0 <= l < |base.levels| && f in base.levels[l] ==> f.number < next
    ensures var db := Db([], None, base.levels, last, [], next, logs);
            db.Inv() && db.Contents() == EntriesFrom(base.levels, 0)
  {
    hide EntriesFrom, VersionOk, UniqueNumbers, LevelsOrdered;
    var db := Db([], None, base.levels, last, [], next, logs);
    assert db.MemEntries() == {};
  }

  lemma LaterLast(db: Db, last: nat)
    requires db.Inv() && Empty(db) && last < MAX_SEQUENCE && forall e :: e in db.Contents() ==> e.key.seqno <= last
    ensures var t := db.(lastSequence := last); t.Inv() && t.Contents() == db.Contents()
  {
    var t := db.(lastSequence := last);
    assert t.Contents() == db.Contents();
  }

  /** Everything the logs hold is numbered behind everything in the tables. */
  lemma OpenedIsInOrder(db: Db, manifest: seq<Edit>, r: Recovered, tables: map<nat, seq<Entry>>, logs: seq<Bytes>,
                        parts: seq<seq<Added>>, numbers: seq<nat>, sizes: nat -> nat, keys: Places, paranoid: bool, base: Db,
                        first: nat, updates: seq<Update>)
    requires IsOpened(db, manifest, r, tables, logs, parts, numbers, sizes, keys, paranoid)
    requires base.Inv() && Loaded(r.levels, tables) == base.levels
    requires forall l, f :: 0 <= l < |base.levels| && f in base.levels[l] ==> f.number < r.nextFileNumber
    requires forall e :: e in EntriesFrom(base.levels, 0) ==> e.key.seqno < first && e.key.seqno <= r.lastSequence
    requires AddedFrom(logs, paranoid) == Numbered(first, updates) && 0 < first && first + |updates| <= MAX_SEQUENCE
    requires updates != [] ==> first + |updates| - 1 <= db.lastSequence
    requires r.lastSequence <= db.lastSequence < MAX_SEQUENCE
    ensures db.Inv() && db.Contents() == EntriesFrom(base.levels, 0) + OpEntries(Ops(updates, keys), first)
    ensures Opens(manifest[0], base.levels, TablesOf(parts, numbers, sizes, keys), db)
  {
    hide Db.Inv, Db.Contents, EntriesFrom, OpEntries, TablesOf, Loaded, AllThere, Rebuilt, Opens;
    var from, files := FirstFree(r), TablesOf(parts, numbers, sizes, keys);
    var v: Db := Db([], None, base.levels, first - 1, [], from, db.logs);
    OnlyLevels(base, first - 1, from, db.logs);
    RebuiltIsInOrder(v, parts, numbers, sizes, keys, updates, db.logs.file);
    RebuiltLevels(v, parts, numbers, sizes, keys, db.logs.file);
    var t := Rebuilt(v, parts, numbers, sizes, keys);
    OpEntriesBounds(Ops(updates, keys), first);
    forall e | e in t.Contents()
      ensures e.key.seqno <= db.lastSequence
    {
      assert e in EntriesFrom(base.levels, 0) || e in OpEntries(Ops(updates, keys), first);
    }
    LaterLast(t, db.lastSequence);
    var w := t.(lastSequence := db.lastSequence);
    NumbersStayBelow(w);
    OtherNumbers(w, db.nextFileNumber, db.logs);
    assert w.(nextFileNumber := db.nextFileNumber, logs := db.logs) == db;
    OpenedManifest(db, manifest, parts, numbers, sizes, keys, base, from);
  }

  lemma OpenedManifest(db: Db, manifest: seq<Edit>, parts: seq<seq<Added>>, numbers: seq<nat>, sizes: nat -> nat,
                       keys: Places, base: Db, from: nat)
    requires base.Inv() && |parts| == |numbers| && Fresh(numbers, from, db.logs.file)
    requires from <= db.logs.file < db.nextFileNumber
    requires forall l, f :: 0 <= l < |base.levels| && f in base.levels[l] ==> f.number < from
    requires base.levels != [] && db.levels == AddedTo(base.levels, TablesOf(parts, numbers, sizes, keys))
    requires |manifest| == 1 && exists e: TableEdit ::
      manifest[0] == BareEdit(e) && e.newFiles == AddingEdit(TablesOf(parts, numbers, sizes, keys)).newFiles
      && e.deletedFiles == [] && CarriesNumbersOf(e, db)
    ensures Opens(manifest[0], base.levels, TablesOf(parts, numbers, sizes, keys), db)
  {
    hide VersionOk, UniqueNumbers, LevelsOrdered, TablesOf, AddedTo, AddingEdit;
    TablesAreNamed(parts, numbers, sizes, keys, from, db.logs.file);
    LevelsStay(base);
  }
}
