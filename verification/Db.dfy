/**
 * The database as a state machine: writes, memtable switches, flushes, trivial moves, compactions and snapshots
 * (db/db_impl.cc), each an atomic step.
 */
module Database {
  import opened Wrappers
  import opened Sequences
  import opened InternalKeys
  import opened Files
  import opened Compactions
  import opened Lookup
  import opened Rewrites
  import opened CompactionReads
  import V = Versions

  datatype Op = Op(kind: ValueType, user: UserKey, value: Bytes)

  /** The log of the memtable, the first log still needed, and the one of earlier releases that is needed too. */
  datatype LogNumbers = LogNumbers(file: nat, oldest: nat, prev: nat)

  datatype Db = Db(
    mem: seq<Entry>,
    imm: Option<seq<Entry>>,
    levels: seq<seq<Table>>,
    lastSequence: nat,
    snapshots: seq<nat>,     // oldest first
    nextFileNumber: nat,
    logs: LogNumbers)
  {
    function Imm(): seq<Entry> { if imm.Some? then imm.value else [] }

    ghost function MemEntries(): set<Entry> { EntrySet(mem) + EntrySet(Imm()) }

    ghost function Contents(): set<Entry> { MemEntries() + EntriesFrom(levels, 0) }

    /** What compactions may not disturb: the oldest snapshot, or the present if there is none. */
    function OldestSnapshot(): nat { if snapshots == [] then lastSequence else snapshots[0] }

    ghost predicate MemOk() {
      && Sorted(mem) && Sorted(Imm()) && NewerSet(EntrySet(mem), EntrySet(Imm()))
      && NewerSet(MemEntries(), EntriesFrom(levels, 0))
    }

    ghost predicate SequencesOk() {
      && lastSequence < MAX_SEQUENCE && (forall e :: e in Contents() ==> e.key.seqno <= lastSequence)
      && (forall i :: 0 <= i < |snapshots| ==> snapshots[i] <= lastSequence)
      && (forall i, j :: 0 <= i < j < |snapshots| ==> snapshots[i] <= snapshots[j])
    }

    ghost predicate NumbersOk() {
      forall l, f :: 0 <= l < |levels| && f in levels[l] ==> f.number < nextFileNumber
    }

    ghost predicate Inv() {
      && VersionOk(levels) && UniqueNumbers(levels) && LevelsOrdered(levels)
      && MemOk() && SequencesOk() && NumbersOk()
    }
  }

  /** The entry an operation becomes under a sequence number. */
  function EntryOf(op: Op, s: nat): Entry {
    Entry(InternalKey(op.user, s, op.kind), if op.kind == Value then op.value else [])
  }

  /** MemTable::Add: the entry goes before the first one at or after it. */
  function AddEntry(run: seq<Entry>, e: Entry): seq<Entry> {
    if run == [] || !Before(run[0].key, e.key) then [e] + run
    else [run[0]] + AddEntry(run[1..], e)
  }

  /** The operations of a batch get consecutive sequence numbers. */
  function AddAll(run: seq<Entry>, ops: seq<Op>, first: nat): seq<Entry> {
    AddSome(run, ops, |ops|, first)
  }

  function AddSome(run: seq<Entry>, ops: seq<Op>, n: nat, first: nat): seq<Entry>
    requires n <= |ops|
  {
    if n == 0 then run
    else AddEntry(AddSome(run, ops, n - 1, first), EntryOf(ops[n - 1], first + n - 1))
  }

  ghost function OpEntries(ops: seq<Op>, first: nat): set<Entry> {
    SomeEntries(ops, |ops|, first)
  }

  ghost function SomeEntries(ops: seq<Op>, n: nat, first: nat): set<Entry>
    requires n <= |ops|
  {
    if n == 0 then {} else SomeEntries(ops, n - 1, first) + {EntryOf(ops[n - 1], first + n - 1)}
  }

  /** The table made from a run of entries. */
  function TableOf(run: seq<Entry>, number: nat, size: nat): Table
    requires run != []
  {
    File(number, size, run[0].key, run[|run| - 1].key, run)
  }

  datatype Step =
    | Write(ops: seq<Op>)
    | SwitchMemTable         // which takes a file number for the new log
    | Flush(level: nat, size: nat)
    | TrivialMove(level: nat, f: Table)
    | Compact(level: nat, inputs0: seq<Table>, inputs1: seq<Table>, input: seq<Entry>, outputs: seq<Table>)
    | GetSnapshot
    | ReleaseSnapshot(index: nat)

  /** A memtable may be flushed past level 0 only where nothing down to its new level overlaps it. */
  ghost predicate FlushLevelOk(levels: seq<seq<Table>>, run: seq<Entry>, level: nat)
    requires run != []
  {
    level + 1 < |levels|
    && (level > 0 ==> forall l {:trigger levels[l]} :: 0 <= l <= level ==> NoneOverlaps(levels[l], run))
  }

  ghost predicate NoneOverlaps(files: seq<Table>, run: seq<Entry>)
    requires run != []
  {
    forall f :: f in files ==> !Overlaps(f, Some(run[0].key.user), Some(run[|run| - 1].key.user))
  }

  /** The outputs of a compaction: the surviving entries cut into tables with new numbers. */
  ghost predicate OutputsFor(db: Db, m: Merge, outputs: seq<Table>) {
    && Flatten(Runs(outputs)) == m.Kept()
    && forall i :: 0 <= i < |outputs| ==>
         outputs[i].contents != [] && outputs[i] == TableOf(outputs[i].contents, db.nextFileNumber + i, outputs[i].size)
  }

  function Runs(files: seq<Table>): seq<seq<Entry>> {
    seq(|files|, i requires 0 <= i < |files| => files[i].contents)
  }

  ghost function MergeOf(db: Db, step: Step): Merge
    requires step.Compact?
  {
    Merge(Job(db.levels, step.level, step.inputs0, step.inputs1), db.MemEntries(), step.input, db.OldestSnapshot())
  }

  ghost predicate Allowed(db: Db, step: Step) {
    match step
    case Write(ops) => db.lastSequence + |ops| < MAX_SEQUENCE
    case SwitchMemTable => db.imm.None?
    case Flush(level, _) => db.imm.Some? && (db.imm.value != [] ==> FlushLevelOk(db.levels, db.imm.value, level))
    case TrivialMove(level, f) => IsCompaction(Job(db.levels, level, [f], []))
    case Compact(_, _, _, _, outputs) => MergeOf(db, step).Valid() && OutputsFor(db, MergeOf(db, step), outputs)
    case GetSnapshot => true
    case ReleaseSnapshot(i) => i < |db.snapshots|
  }

  ghost function Apply(db: Db, step: Step): Db
    requires Allowed(db, step)
  {
    match step
    case Write(ops) =>
      db.(mem := AddAll(db.mem, ops, db.lastSequence + 1), lastSequence := db.lastSequence + |ops|)
    case SwitchMemTable => db.(imm := Some(db.mem), mem := [], nextFileNumber := db.nextFileNumber + 1,
                                    logs := db.logs.(file := db.nextFileNumber))
    case Flush(level, size) =>
      var flushed := db.(imm := None, nextFileNumber := db.nextFileNumber + 1,
                         logs := LogNumbers(db.logs.file, db.logs.file, 0));
      if db.imm.value == [] then flushed
      else flushed.(levels := Added(db.levels, level, TableOf(db.imm.value, db.nextFileNumber, size)))
    case TrivialMove(level, f) => db.(levels := Rewritten(Job(db.levels, level, [f], []), [f]))
    case Compact(level, inputs0, inputs1, _, outputs) =>
      db.(levels := Rewritten(Job(db.levels, level, inputs0, inputs1), outputs),
          nextFileNumber := db.nextFileNumber + |outputs|)
    case GetSnapshot => db.(snapshots := db.snapshots + [db.lastSequence])
    case ReleaseSnapshot(i) => db.(snapshots := db.snapshots[..i] + db.snapshots[i + 1..])
  }

  function Added(levels: seq<seq<Table>>, level: nat, f: Table): seq<seq<Table>>
    requires level < |levels|
  {
    levels[level := V.SaveLevel(levels[level], {}, V.InsertAll([], [f]))]
  }

  /** A database just created. */
  ghost predicate IsNew(db: Db) {
    db.mem == [] && db.imm.None? && db.levels == seq(NUM_LEVELS, _ => []) && db.lastSequence == 0 && db.snapshots == []
  }
}
