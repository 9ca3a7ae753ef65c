/** Replaying a write-ahead log after a crash (db/db_impl.cc, RecoverLogFile and Write). */
module Recovery {
  import opened Wrappers
  import opened Sequences
  import opened InternalKeys
  import opened Coding
  import opened Logs
  import opened LogReading
  import opened WriteBatches

  /** An entry a memtable is given. */
  datatype Added = Added(seqno: nat, update: Update)

  /** MemTableInserter: consecutive sequence numbers from the batch's on. */
  function Numbered(first: nat, updates: seq<Update>): (r: seq<Added>)
    ensures |r| == |updates|
  {
    seq(|updates|, i requires 0 <= i < |updates| => Added(first + i, updates[i]))
  }

  /**
   * The outcome of a replay: the entries added in order, the largest sequence number met, and whether it went through.
   * `rejected` counts the records too small for a batch.
   */
  datatype Replayed = Replayed(added: seq<Added>, maxSequence: nat, ok: bool, rejected: nat)

  /** One record of the log. Unless checks are paranoid a malformed batch is not held against the log. */
  function ReplayOne(s: Replayed, record: Bytes, paranoid: bool): Replayed {
    if |record| < HEADER then s.(rejected := s.rejected + 1, ok := !paranoid)
    else
      var (updates, status) := Iterated(record);
      var added := s.added + Numbered(Sequence(record), updates);
      if status != Ok && paranoid then s.(added := added, ok := false)
      else
        var last := (Sequence(record) + Count(record) + TWO_64 - 1) % TWO_64;
        s.(added := added, maxSequence := if last > s.maxSequence then last else s.maxSequence)
  }

  function Replay(s: Replayed, records: seq<Bytes>, paranoid: bool): Replayed
    decreases |records|
  {
    if records == [] || !s.ok then s
    else Replay(ReplayOne(s, records[0], paranoid), records[1..], paranoid)
  }

  const START: Replayed := Replayed([], 0, true, 0)

  // What a replay takes from any records

  /** A record that is a batch without a fault. */
  ghost predicate IsBatch(record: Bytes) { |record| >= 12 && Iterated(record).1 == Ok }

  /** The entries of a record: those before the fault if there is one, under consecutive numbers. */
  ghost function EntriesOf(record: Bytes): seq<Added> {
    if |record| < 12 then [] else Numbered(Sequence(record), Iterated(record).0)
  }

  ghost function AllEntries(records: seq<Bytes>): seq<Added> {
    if records == [] then [] else EntriesOf(records[0]) + AllEntries(records[1..])
  }

  ghost function Short(records: seq<Bytes>): nat {
    if records == [] then 0 else (if |records[0]| < 12 then 1 else 0) + Short(records[1..])
  }

  /** The last sequence number a record claims. */
  ghost function LastOf(record: Bytes): nat
    requires |record| >= 12
  {
    (Sequence(record) + Count(record) + TWO_64 - 1) % TWO_64
  }

  /** The largest of the numbers claimed, and of one found before. */
  ghost predicate IsMax(records: seq<Bytes>, before: nat, max: nat) {
    && before <= max && (forall r :: r in records && |r| >= 12 ==> LastOf(r) <= max)
    && (max == before || exists r :: r in records && |r| >= 12 && LastOf(r) == max)
  }

  /** Without paranoid checks no record fails a replay: of each the entries before a fault are taken. */
  lemma {:induction false} LenientReplay(s: Replayed, records: seq<Bytes>)
    requires s.ok
    ensures var r := Replay(s, records, false);
            && r.ok && r.added == s.added + AllEntries(records) && r.rejected == s.rejected + Short(records)
            && IsMax(records, s.maxSequence, r.maxSequence)
    decreases |records|
  {
    hide Iterated, Sequence, Count, Numbered, IsMax;
    if records == [] {
      assert s.added + AllEntries(records) == s.added;
      NoneIsMax(s.maxSequence);
    } else {
      var next := ReplayOne(s, records[0], false);
      LenientReplay(next, records[1..]);
      assert s.added + (EntriesOf(records[0]) + AllEntries(records[1..]))
             == (s.added + EntriesOf(records[0])) + AllEntries(records[1..]);
      assert s.added + [] == s.added;
      OneMoreIsMax(records, s.maxSequence, next.maxSequence, Replay(s, records, false).maxSequence);
    }
  }

  lemma NoneIsMax(before: nat)
    ensures IsMax([], before, before)
  {
  }

  lemma OneMoreIsMax(records: seq<Bytes>, before: nat, next: nat, max: nat)
    requires records != [] && IsMax(records[1..], next, max)
    requires next == if |records[0]| >= 12 && LastOf(records[0]) > before then LastOf(records[0]) else before
    ensures IsMax(records, before, max)
  {
    hide LastOf;
    assert records == [records[0]] + records[1..];
  }

  lemma OneParanoid(s: Replayed, record: Bytes)
    requires s.ok
    ensures var next := ReplayOne(s, record, true);
            && next.added == s.added + EntriesOf(record) && next.ok == IsBatch(record)
            && next.maxSequence
               == if next.ok && |record| >= 12 && LastOf(record) > s.maxSequence then LastOf(record) else s.maxSequence
  {
    hide Iterated, Sequence, Count, Numbered;
    assert s.added + [] == s.added;
  }

  /** With paranoid checks a replay goes on to the first fault, and fails with it. */
  lemma {:induction false} ParanoidReplay(s: Replayed, records: seq<Bytes>) returns (n: nat)
    requires s.ok
    ensures n <= |records| && (forall i :: 0 <= i < n ==> IsBatch(records[i])) && (n < |records| ==> !IsBatch(records[n]))
    ensures var r := Replay(s, records, true);
            && r.ok == (n == |records|)
            && r.added == s.added + AllEntries(if r.ok then records else records[..n + 1])
            && IsMax(records[..n], s.maxSequence, r.maxSequence)
    decreases |records|
  {
    hide ReplayOne, IsBatch, EntriesOf, LastOf, IsMax;
    NoneIsMax(s.maxSequence);
    if records == [] {
      n := 0;
      assert s.added + AllEntries(records) == s.added && records[..0] == [];
    } else {
      var next, first := ReplayOne(s, records[0], true), EntriesOf(records[0]);
      OneParanoid(s, records[0]);
      assert Replay(s, records, true) == Replay(next, records[1..], true);
      if !next.ok {
        n := 0;
        var one := records[..1];
        assert one[0] == records[0] && one[1..] == records[..0] == [];
        assert AllEntries(one) == first + AllEntries(one[1..]) && first + [] == first;
      } else {
        var m := ParanoidReplay(next, records[1..]);
        n := m + 1;
        var taken := if m == |records[1..]| then records[1..] else records[1..][..m + 1];
        assert records[..n + if n == |records| then 0 else 1] == [records[0]] + taken && ([records[0]] + taken)[1..] == taken;
        assert AllEntries([records[0]] + taken) == first + AllEntries(taken);
        assert s.added + (first + AllEntries(taken)) == (s.added + first) + AllEntries(taken);
        assert records[..n][1..] == records[1..][..m] && records[..n][0] == records[0];
        OneMoreIsMax(records[..n], s.maxSequence, next.maxSequence, Replay(s, records, true).maxSequence);
      }
    }
  }

  // What was committed

  /** The records hold the batches, numbered one after the other. */
  ghost predicate Committed(first: nat, batches: seq<seq<Update>>, records: seq<Bytes>)
    decreases |batches|
  {
    && |records| == |batches| && first + |Flatten(batches)| < TWO_64
    && (batches != [] ==>
          && |batches[0]| < TWO_32 && Represents(records[0], first, batches[0])
          && Committed(first + |batches[0]|, batches[1..], records[1..]))
  }

  lemma NumberedJoins(first: nat, a: seq<Update>, b: seq<Update>)
    ensures Numbered(first, a + b) == Numbered(first, a) + Numbered(first + |a|, b)
  {
  }

  /** Replaying one committed batch adds its updates under their numbers. */
  lemma ReplayBatch(s: Replayed, first: nat, updates: seq<Update>, record: Bytes, paranoid: bool)
    requires 1 <= first && first + |updates| < TWO_64 && |updates| < TWO_32 && s.maxSequence < first
    requires Represents(record, first, updates)
    ensures ReplayOne(s, record, paranoid)
            == s.(added := s.added + Numbered(first, updates), maxSequence := if updates == [] && s.maxSequence == first - 1
                                                                                then s.maxSequence else first + |updates| - 1)
  {
    hide Represents, Iterated, Sequence, Count;
    RepresentedParts(record, first, updates);
    IterateRoundTrip(record, first, updates);
  }

  lemma {:induction false} ReplayCommitted(s: Replayed, first: nat, batches: seq<seq<Update>>, records: seq<Bytes>,
                                           paranoid: bool)
    requires 1 <= first && s.ok && s.maxSequence < first && Committed(first, batches, records)
    ensures Replay(s, records, paranoid)
            == s.(added := s.added + Numbered(first, Flatten(batches)),
                  maxSequence := if batches == [] then s.maxSequence else first + |Flatten(batches)| - 1)
    decreases |batches|
  {
    hide ReplayOne, Represents;
    if batches == [] {
      assert s.added + Numbered(first, []) == s.added;
    } else {
      var now := ReplayOne(s, records[0], paranoid);
      var next := first + |batches[0]|;
      FlattenFirst(batches);
      ReplayBatch(s, first, batches[0], records[0], paranoid);
      ReplayCommitted(now, next, batches[1..], records[1..], paranoid);
      NumberedJoins(first, batches[0], Flatten(batches[1..]));
      assert s.added + Numbered(first, batches[0]) + Numbered(next, Flatten(batches[1..]))
             == s.added + Numbered(first, Flatten(batches));
    }
  }

  lemma {:induction false} CommittedPrefix(first: nat, batches: seq<seq<Update>>, records: seq<Bytes>, k: nat)
    requires Committed(first, batches, records) && k <= |batches|
    ensures Committed(first, batches[..k], records[..k])
    decreases k
  {
    hide Represents;
    FlattenPrefix(batches, k);
    if k > 0 {
      CommittedPrefix(first + |batches[0]|, batches[1..], records[1..], k - 1);
      assert batches[..k][1..] == batches[1..][..k - 1] && records[..k][1..] == records[1..][..k - 1];
    }
  }

  /**
   * Crash recovery of the database's log: whatever prefix of its bytes survives, replay adds exactly the updates of a
   * prefix of the committed batches, under the sequence numbers they were committed with, and finds the last number.
   */
  lemma CrashRecovers(first: nat, batches: seq<seq<Update>>, records: seq<Bytes>, cut: nat, paranoid: bool)
    returns (k: nat)
    requires 1 <= first && Committed(first, batches, records) && cut <= |Log(0, records)|
    ensures k <= |batches| && |Log(0, records[..k])| <= cut && (k < |records| ==> cut < |Log(0, records[..k + 1])|)
    ensures var (survivors, dropped) := ReadAll(Log(0, records)[..cut], 0, true);
            && dropped == []
            && Replay(START, survivors, paranoid)
               == Replayed(Numbered(first, Flatten(batches[..k])),
                           if k == 0 then 0 else first + |Flatten(batches[..k])| - 1, true, 0)
  {
    hide Log, ReadAll, Replay, Committed, Flatten;
    CommittedLengths(first, batches, records);
    k := CrashPrefix(records, cut, true);
    CommittedPrefix(first, batches, records, k);
    ReplayCommitted(START, first, batches[..k], records[..k], paranoid);
    assert [] + Numbered(first, Flatten(batches[..k])) == Numbered(first, Flatten(batches[..k]));
  }

  lemma CommittedLengths(first: nat, batches: seq<seq<Update>>, records: seq<Bytes>)
    requires Committed(first, batches, records)
    ensures |records| == |batches|
  {
  }

  // The code

  /** Where a replay stands: what the whole file would give is what the rest of it gives from here. */
  ghost predicate OnTheWay(file: Bytes, p: nat, r: Replayed, dropped: seq<nat>, paranoid: bool) {
    && p <= |file| && r.ok
    && ReadAll(file, 0, true).1 == dropped + ReadAll(file, p, true).1
    && Replay(START, ReadAll(file, 0, true).0, paranoid) == Replay(r, ReadAll(file, p, true).0, paranoid)
  }

  lemma AtEnd(file: Bytes, p: nat, r: Replayed, dropped: seq<nat>, paranoid: bool)
    requires OnTheWay(file, p, r, dropped, paranoid) && ReadLogical(file, p, [], false, true).End?
    ensures ReadAll(file, 0, true).1 == dropped + ReadLogical(file, p, [], false, true).dropped
    ensures Replay(START, ReadAll(file, 0, true).0, paranoid) == r
  {
    hide ReadLogical;
    assert ReadAll(file, p, true) == ([], ReadLogical(file, p, [], false, true).dropped);
  }

  lemma OneRecordOn(file: Bytes, p: nat, r: Replayed, dropped: seq<nat>, paranoid: bool)
    requires OnTheWay(file, p, r, dropped, paranoid) && ReadLogical(file, p, [], false, true).Record?
    ensures var l := ReadLogical(file, p, [], false, true);
            var r2 := ReplayOne(r, l.data, paranoid);
            && ReadAll(file, 0, true).1 == dropped + l.dropped + ReadAll(file, l.next, true).1
            && (if r2.ok then OnTheWay(file, l.next, r2, dropped + l.dropped, paranoid)
                else Replay(START, ReadAll(file, 0, true).0, paranoid) == r2)
  {
    hide ReadLogical, ReplayOne;
    var l := ReadLogical(file, p, [], false, true);
    var rest := ReadAll(file, l.next, true);
    assert ReadAll(file, p, true).0 == [l.data] + rest.0 && ReadAll(file, p, true).1 == l.dropped + rest.1;
    assert ([l.data] + rest.0)[1..] == rest.0;
    assert dropped + (l.dropped + rest.1) == dropped + l.dropped + rest.1;
    var r2 := ReplayOne(r, l.data, paranoid);
    assert Replay(r, [l.data] + rest.0, paranoid) == Replay(r2, rest.0, paranoid);
    assert !r2.ok ==> Replay(r2, rest.0, paranoid) == r2;
  }

  // Where the entries go

  function Entries(mem: Option<seq<Added>>): seq<Added> { if mem.Some? then mem.value else [] }

  /**
   * Replays a log.  With paranoid checks anything reported as corrupt fails the recovery.  A memtable that gets full
   * becomes a table, and so does the last one, unless the log is the last and goes on being used; all that was added is
   * in one of them.
   */
  method RecoverLogFile(file: Bytes, paranoid: bool, full: seq<Added> -> bool, reuse: bool)
    returns (r: Replayed, tables: seq<seq<Added>>, mem: Option<seq<Added>>)
    ensures var (records, dropped) := ReadAll(file, 0, true);
            if paranoid && dropped != [] then !r.ok else r == Replay(START, records, paranoid)
    ensures if r.ok then Flatten(tables) + Entries(mem) == r.added else mem == None && Flatten(tables) <= r.added
    ensures mem.Some? ==> reuse && tables == []
  {
    r, tables, mem := ReplayLog(file, paranoid, full);
    if r.ok && reuse && tables == [] {
      mem := Some(Entries(mem));
    } else {
      if mem.Some? && r.ok {
        FlattenExtends(tables, mem.value);
        tables := tables + [mem.value];
      }
      mem := None;
    }
  }

  /** The loop over the records. */
  method ReplayLog(file: Bytes, paranoid: bool, full: seq<Added> -> bool)
    returns (r: Replayed, tables: seq<seq<Added>>, mem: Option<seq<Added>>)
    ensures var (records, dropped) := ReadAll(file, 0, true);
            if paranoid && dropped != [] then !r.ok else r == Replay(START, records, paranoid)
    ensures Flatten(tables) + Entries(mem) == r.added
  {
    hide ReadLogical, ReadAll, Replay, LogReading.Reader.Valid, Flatten;
    var reader := new LogReading.Reader(file, true);
    r, tables, mem := START, [], None;
    NoTables();
    reader.InFile();
    Starts(file, paranoid);
    while true
      invariant reader.Valid() && fresh(reader) && reader.file == file && reader.checksum
      invariant |reader.buffer| <= reader.endOfBufferOffset <= |file|
      invariant OnTheWay(file, reader.Pos(), r, reader.dropped, paranoid) && (paranoid ==> reader.dropped == [])
      invariant Flatten(tables) + Entries(mem) == r.added
      decreases |file| - reader.Pos()
    {
      ghost var p, dropped := reader.Pos(), reader.dropped;
      var record := reader.ReadRecord();
      if record.None? {
        AtEnd(file, p, r, dropped, paranoid);
        if paranoid && reader.dropped != [] {
          r := r.(ok := false);
        }
        return;
      }
      OneRecordOn(file, p, r, dropped, paranoid);
      if paranoid && reader.dropped != [] {
        r := r.(ok := false);
        return;
      }
      r, tables, mem := AddRecord(r, tables, mem, record.value, paranoid, full);
      if !r.ok {
        return;
      }
      reader.InFile();
    }
  }

  lemma NoTables()
    ensures Flatten<Added>([]) == []
  {
  }

  /** One record's batch goes into the memtable, which becomes a table when it is full. */
  method AddRecord(s: Replayed, tables0: seq<seq<Added>>, mem0: Option<seq<Added>>, record: Bytes, paranoid: bool,
                   full: seq<Added> -> bool)
    returns (r: Replayed, tables: seq<seq<Added>>, mem: Option<seq<Added>>)
    requires Flatten(tables0) + Entries(mem0) == s.added
    ensures r == ReplayOne(s, record, paranoid) && Flatten(tables) + Entries(mem) == r.added
  {
    hide Flatten, ReplayOne, Iterated, Numbered, Sequence;
    RecordAdds(s, record, paranoid);
    r := InsertRecord(s, record, paranoid);
    tables, mem := tables0, mem0;
    if |record| >= HEADER {
      var inserted := Numbered(Sequence(record), Iterated(record).0);
      mem := Some(Entries(mem0) + inserted);
      assert Flatten(tables) + (Entries(mem0) + inserted) == (Flatten(tables) + Entries(mem0)) + inserted;
      if r.ok && full(mem.value) {
        FlattenExtends(tables, mem.value);
        tables, mem := tables + [mem.value], None;
        assert Flatten(tables) + [] == Flatten(tables);
      }
    }
  }

  lemma RecordAdds(s: Replayed, record: Bytes, paranoid: bool)
    ensures ReplayOne(s, record, paranoid).added
            == if |record| < HEADER then s.added else s.added + Numbered(Sequence(record), Iterated(record).0)
  {
  }

  lemma Starts(file: Bytes, paranoid: bool)
    ensures OnTheWay(file, 0, START, [], paranoid)
  {
    hide ReadAll, Replay;
    assert [] + ReadAll(file, 0, true).1 == ReadAll(file, 0, true).1;
  }

  /** Takes one record to be a batch and adds its updates to the memtable. */
  method InsertRecord(s: Replayed, record: Bytes, paranoid: bool) returns (r: Replayed)
    ensures r == ReplayOne(s, record, paranoid)
  {
    r := s;
    if |record| < HEADER {
      r := r.(rejected := r.rejected + 1, ok := !paranoid);
      return;
    }
    var batch := new WriteBatch.Contents(record);
    var updates, status := batch.Iterate();
    r := r.(added := r.added + Numbered(Sequence(record), updates));
    if status != Ok && paranoid {
      r := r.(ok := false);
      return;
    }
    var last := (Sequence(record) + Count(record) + TWO_64 - 1) % TWO_64;
    if last > r.maxSequence {
      r := r.(maxSequence := last);
    }
  }
}
