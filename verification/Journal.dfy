/**
 * Which log holds what: every batch is in the log of its memtable, a log is needed until its memtable is flushed, and
 * the numbers recorded with a flush tell which ones still are (db/db_impl.cc, Write, MakeRoomForWrite and
 * CompactMemTable).
 */
module Journals {
  import opened Wrappers
  import opened Sequences
  import opened InternalKeys
  import opened Lookup
  import opened CompactionReads
  import opened Rewrites
  import opened Database
  import opened DatabaseInvariant
  import opened DatabaseReads

  /** A log: the first sequence number in it and its batches. */
  datatype LogFile = LogFile(first: nat, batches: seq<seq<Op>>) {
    /** The first sequence number behind it. */
    function Next(): nat { first + |Flatten(batches)| }

    ghost function Entries(): set<Entry> { OpEntries(Flatten(batches), first) }
  }

  /** Every log ever written, deleted or not, and the number of that of the immutable memtable. */
  datatype Journal = Journal(files: map<nat, LogFile>, immLog: Option<nat>)

  /** What a step does to the logs. */
  function Logged(j: Journal, db: Db, step: Step): Journal {
    match step
    case Write(ops) =>
      if db.logs.file in j.files then
        var log := j.files[db.logs.file];
        j.(files := j.files[db.logs.file := LogFile(log.first, log.batches + [ops])])
      else j
    case SwitchMemTable =>
      Journal(j.files[db.nextFileNumber := LogFile(db.lastSequence + 1, [])], Some(db.logs.file))
    case Flush(_, _) => j.(immLog := None)
    case _ => j
  }

  ghost function LoggedBy(j: Journal, db: Db, steps: seq<Step>): Journal
    requires IsRun(db, steps)
    decreases |steps|
  {
    if steps == [] then j else LoggedBy(Logged(j, db, steps[0]), Apply(db, steps[0]), steps[1..])
  }

  /** Where what the logs hold begins: everything before it is in tables. */
  function Start(j: Journal, db: Db): nat
    requires db.logs.file in j.files && (j.immLog.Some? ==> j.immLog.value in j.files)
  {
    if j.immLog.Some? then j.files[j.immLog.value].first else j.files[db.logs.file].first
  }

  ghost predicate MemLogged(j: Journal, db: Db) {
    && db.logs.file in j.files
    && j.files[db.logs.file].Entries() == EntrySet(db.mem) && j.files[db.logs.file].Next() == db.lastSequence + 1
  }

  ghost predicate ImmLogged(j: Journal, db: Db) {
    && (j.immLog.Some? <==> db.imm.Some?)
    && (j.immLog.Some? ==>
          && j.immLog.value in j.files && db.logs.file in j.files && j.immLog.value < db.logs.file
          && j.files[j.immLog.value].Entries() == EntrySet(db.imm.value)
          && j.files[j.immLog.value].Next() == j.files[db.logs.file].first)
  }

  /** The logs from the oldest needed on are those of the memtables. */
  ghost predicate NumbersTell(j: Journal, db: Db) {
    && db.logs.oldest <= db.logs.file < db.nextFileNumber && (j.immLog.Some? ==> db.logs.oldest <= j.immLog.value)
    && (forall n :: n in j.files && db.logs.oldest <= n ==> n == db.logs.file || Some(n) == j.immLog)
    && db.logs.prev < db.nextFileNumber && db.logs.prev !in j.files
    && (forall n :: n in j.files ==> 0 < n < db.nextFileNumber)
    && forall n :: n in j.files ==> j.files[n].first > 0
  }

  ghost predicate JournalOk(j: Journal, db: Db) {
    && MemLogged(j, db) && ImmLogged(j, db) && NumbersTell(j, db)
    && forall e :: e in EntriesFrom(db.levels, 0) ==> e.key.seqno < Start(j, db)
  }

  // Batches one behind the other

  lemma OpEntriesJoin(a: seq<Op>, b: seq<Op>, first: nat)
    ensures OpEntries(a + b, first) == OpEntries(a, first) + OpEntries(b, first + |a|)
  {
    hide OpEntries;
    OpEntriesAre(a, first);
    OpEntriesAre(b, first + |a|);
    OpEntriesAre(a + b, first);
    forall e
      ensures e in OpEntries(a + b, first) <==> e in OpEntries(a, first) + OpEntries(b, first + |a|)
    {
      if e in OpEntries(a + b, first) {
        var i :| 0 <= i < |a + b| && e == EntryOf((a + b)[i], first + i);
        if i >= |a| { assert e == EntryOf(b[i - |a|], first + |a| + (i - |a|)); }
      }
      if e in OpEntries(a, first) {
        var i :| 0 <= i < |a| && e == EntryOf(a[i], first + i);
        assert (a + b)[i] == a[i];
      }
      if e in OpEntries(b, first + |a|) {
        var i :| 0 <= i < |b| && e == EntryOf(b[i], first + |a| + i);
        assert (a + b)[|a| + i] == b[i] && e == EntryOf((a + b)[|a| + i], first + (|a| + i));
      }
    }
  }

  // Every step keeps the journal

  lemma WriteIsLogged(j: Journal, db: Db, ops: seq<Op>)
    requires JournalOk(j, db) && Allowed(db, Write(ops))
    ensures JournalOk(Logged(j, db, Write(ops)), Apply(db, Write(ops)))
  {
    hide EntriesFrom, OpEntries, Flatten, AddSome;
    var log := j.files[db.logs.file];
    FlattenExtends(log.batches, ops);
    OpEntriesJoin(Flatten(log.batches), ops, log.first);
    AddAllContents(db.mem, ops, db.lastSequence + 1);
  }

  lemma AddAllContents(run: seq<Entry>, ops: seq<Op>, first: nat)
    ensures EntrySet(AddAll(run, ops, first)) == EntrySet(run) + OpEntries(ops, first)
  {
    AddSomeContents(run, ops, |ops|, first);
  }

  lemma SwitchIsLogged(j: Journal, db: Db)
    requires JournalOk(j, db) && Allowed(db, SwitchMemTable)
    ensures JournalOk(Logged(j, db, SwitchMemTable), Apply(db, SwitchMemTable))
  {
    hide EntriesFrom;
    OpEntriesAre([], db.lastSequence + 1);
    assert Flatten<Op>([]) == [] && OpEntries([], db.lastSequence + 1) == {} && EntrySet([]) == {};
  }

  lemma FlushIsLogged(j: Journal, db: Db, level: nat, size: nat)
    requires db.Inv() && JournalOk(j, db) && Allowed(db, Flush(level, size))
    ensures JournalOk(Logged(j, db, Flush(level, size)), Apply(db, Flush(level, size)))
  {
    hide EntriesFrom, Flatten, FlushLevelOk, Db.Inv;
    var after := Apply(db, Flush(level, size));
    FlushKeepsInv(db, level, size);
    var log := j.files[j.immLog.value];
    OpEntriesBounds(Flatten(log.batches), log.first);
    forall e | e in EntriesFrom(after.levels, 0)
      ensures e.key.seqno < j.files[db.logs.file].first
    {
      LevelsAfterFlush(db, level, size, e);
    }
  }

  lemma LevelsAfterFlush(db: Db, level: nat, size: nat, e: Entry)
    requires db.Inv() && Allowed(db, Flush(level, size)) && e in EntriesFrom(Apply(db, Flush(level, size)).levels, 0)
    ensures e in EntrySet(db.imm.value) || e in EntriesFrom(db.levels, 0)
  {
    if db.imm.value != [] {
      var f := TableOf(db.imm.value, db.nextFileNumber, size);
      FlushIsOk(db, level, size);
      FlushKeepsVersion(db.levels, level, f);
      OneMoreContents(db.levels, level, f, Apply(db, Flush(level, size)).levels);
    }
  }

  lemma OthersAreLogged(j: Journal, db: Db, step: Step)
    requires db.Inv() && JournalOk(j, db) && Allowed(db, step)
    requires !step.Write? && !step.SwitchMemTable? && !step.Flush?
    ensures JournalOk(Logged(j, db, step), Apply(db, step))
  {
    hide EntriesFrom, OpEntries, Flatten, Db.Inv, Rewritten, Merge.Valid, OutputsFor, IsCompaction, Merge.Kept;
    LevelsAfterMerge(db, step);
  }

  lemma LevelsAfterMerge(db: Db, step: Step)
    requires db.Inv() && Allowed(db, step) && !step.Write? && !step.SwitchMemTable? && !step.Flush?
    ensures EntriesFrom(Apply(db, step).levels, 0) <= EntriesFrom(db.levels, 0)
  {
    hide EntriesFrom, Db.Inv, Rewritten, Merge.Valid, OutputsFor, IsCompaction;
    match step
    case TrivialMove(level, f) => MoveKeepsContents(db, level, f);
    case Compact(_, _, _, _, _) => CompactShrinks(db, step);
    case _ =>
  }

  lemma CompactShrinks(db: Db, step: Step)
    requires db.Inv() && step.Compact? && Allowed(db, step)
    ensures EntriesFrom(Apply(db, step).levels, 0) <= EntriesFrom(db.levels, 0)
  {
    hide EntriesFrom, EntriesIn, Db.Inv, Rewritten, OutputsFor, OutputsOk, IsCompaction;
    CompactOutputsOk(db, step);
    ResultShrinks(MergeOf(db, step), step.outputs);
  }

  lemma StepIsLogged(j: Journal, db: Db, step: Step)
    requires db.Inv() && JournalOk(j, db) && Allowed(db, step)
    ensures JournalOk(Logged(j, db, step), Apply(db, step))
  {
    hide JournalOk, Db.Inv, Allowed, Apply, Logged;
    match step
    case Write(ops) => WriteIsLogged(j, db, ops);
    case SwitchMemTable => SwitchIsLogged(j, db);
    case Flush(level, size) => FlushIsLogged(j, db, level, size);
    case _ => OthersAreLogged(j, db, step);
  }

  /** After any run the logs needed hold exactly what is in the memtables, and their numbers tell which they are. */
  lemma {:induction false} RunIsLogged(j: Journal, db: Db, steps: seq<Step>)
    requires db.Inv() && JournalOk(j, db) && IsRun(db, steps)
    ensures JournalOk(LoggedBy(j, db, steps), EndOf(db, steps)) && EndOf(db, steps).Inv()
    decreases |steps|
  {
    hide JournalOk, Db.Inv, Allowed, Apply, Logged;
    if steps != [] {
      StepKeepsInv(db, steps[0]);
      StepIsLogged(j, db, steps[0]);
      RunIsLogged(Logged(j, db, steps[0]), Apply(db, steps[0]), steps[1..]);
    }
  }
}
