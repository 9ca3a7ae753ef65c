/**
 * Crashes from end to end: whatever prefix of the current log and whatever unfinished edit of the manifest a crash
 * leaves, the database opened again holds what the crashed one held up to some batch (db/db_impl.cc, DB::Open).
 */
module Crashes {
  import opened Wrappers
  import opened Sequences
  import opened InternalKeys
  import opened Compactions
  import opened Lookup
  import opened Rewrites
  import opened CompactionReads
  import opened KeyCoding
  import opened Logs
  import opened LogReading
  import opened WriteBatches
  import opened Recovery
  import opened Database
  import opened DatabaseInvariant
  import opened DatabaseReads
  import opened DatabaseManifest
  import opened ManifestCodec
  import opened ManifestRecovery
  import opened Journals
  import opened Reopening

  // What a crash leaves behind

  function BatchOps(batches: seq<seq<Update>>, keys: Places): (r: seq<seq<Op>>)
    ensures |r| == |batches|
  {
    seq(|batches|, i requires 0 <= i < |batches| => Ops(batches[i], keys))
  }

  lemma {:induction false} FlatOps(batches: seq<seq<Update>>, keys: Places)
    ensures Flatten(BatchOps(batches, keys)) == Ops(Flatten(batches), keys)
  {
    if batches != [] {
      var front, last := batches[..|batches| - 1], batches[|batches| - 1];
      FlatOps(front, keys);
      assert BatchOps(batches, keys)[..|batches| - 1] == BatchOps(front, keys);
      assert Ops(Flatten(front) + last, keys) == Ops(Flatten(front), keys) + Ops(last, keys);
    }
  }

  /** The batches of a log as the user's bytes, and the records they were encoded to. */
  datatype Encoded = Encoded(batches: seq<seq<Update>>, records: seq<Bytes>)

  ghost predicate IsEncoded(e: Encoded, log: LogFile, keys: Places) {
    && Committed(log.first, e.batches, e.records) && |e.records| == |e.batches| && log.batches == BatchOps(e.batches, keys)
  }

  /** The logs that are still needed. */
  function Needed(j: Journal, db: Db): seq<nat> {
    if j.immLog.Some? then [j.immLog.value, db.logs.file] else [db.logs.file]
  }

  /**
   * What a crash leaves behind: all tables of the version, the log of the immutable memtable, and some prefix of the
   * current log; of logs no longer needed any that have not been deleted.
   */
  ghost predicate LeftBehind(disk: Disk, j: Journal, db: Db, encoded: map<nat, Encoded>, cut: nat, keys: Places) {
    && (forall l, f :: 0 <= l < |db.levels| && f in db.levels[l] ==>
          f.number in disk.tables && disk.tables[f.number] == f.contents)
    && (forall n :: n in disk.logs ==> n in j.files)
    && (forall n :: n in Needed(j, db) ==>
          n in disk.logs && n in j.files && n in encoded && IsEncoded(encoded[n], j.files[n], keys))
    && (j.immLog.Some? ==> disk.logs[j.immLog.value] == Log(0, encoded[j.immLog.value].records))
    && cut <= |Log(0, encoded[db.logs.file].records)|
    && disk.logs[db.logs.file] == Log(0, encoded[db.logs.file].records)[..cut]
  }

  /** The numbers in the manifest tell which logs are to be replayed. */
  lemma NeededAreFound(disk: Disk, j: Journal, db: Db, names: seq<nat>)
    requires JournalOk(j, db) && (forall n :: n in disk.logs ==> n in j.files)
    requires forall n :: n in Needed(j, db) ==> n in disk.logs
    requires Ascending(names)
    requires forall n :: n in names <==> n in disk.logs && (n >= db.logs.oldest || n == db.logs.prev)
    ensures names == Needed(j, db)
  {
    hide EntriesFrom, MemLogged;
    forall n
      ensures n in names <==> n in Needed(j, db)
    {
    }
    AscendingIsUnique(names, Needed(j, db));
  }

  lemma HeadIsOnce(numbers: seq<nat>)
    requires Ascending(numbers) && numbers != []
    ensures Ascending(numbers[1..]) && forall n :: n in numbers[1..] <==> n in numbers && n != numbers[0]
    ensures forall n :: n in numbers ==> numbers[0] <= n
  {
    assert numbers == [numbers[0]] + numbers[1..];
  }

  lemma {:induction false} AscendingIsUnique(a: seq<nat>, b: seq<nat>)
    requires Ascending(a) && Ascending(b) && forall n :: n in a <==> n in b
    ensures a == b
  {
    if a != [] {
      assert a[0] in b;
      assert b[0] in a;
      HeadIsOnce(a);
      HeadIsOnce(b);
      AscendingIsUnique(a[1..], b[1..]);
      assert a == [a[0]] + a[1..] && b == [b[0]] + b[1..];
    } else if b != [] {
      HasMember(b);
    }
  }

  lemma HasMember(numbers: seq<nat>)
    requires numbers != []
    ensures exists n :: n in numbers
  {
    assert numbers[0] in numbers;
  }

  /** One log, cut short, is replayed to a prefix of its batches. */
  lemma LogReplays(file: Bytes, log: LogFile, e: Encoded, cut: nat, keys: Places, paranoid: bool) returns (k: nat)
    requires IsEncoded(e, log, keys) && 1 <= log.first && cut <= |Log(0, e.records)| && file == Log(0, e.records)[..cut]
    ensures k <= |e.batches| && |Log(0, e.records[..k])| <= cut && (k < |e.batches| ==> cut < |Log(0, e.records[..k + 1])|)
    ensures cut == |Log(0, e.records)| ==> k == |e.batches|
    ensures Replays(file, paranoid)
    ensures ReplayOf(file, paranoid) == Replayed(Numbered(log.first, Flatten(e.batches[..k])),
                                                 if k == 0 then 0 else log.first + |Flatten(e.batches[..k])| - 1, true, 0)
  {
    hide Log, ReadAll, Replay, Committed;
    k := CrashRecovers(log.first, e.batches, e.records, cut, paranoid);
    if k < |e.batches| {
      LogGrows(e.records, k + 1, |e.records|);
      assert e.records[..|e.records|] == e.records;
    }
  }

  lemma FromOne(mem: Bytes, paranoid: bool, last: nat)
    ensures AddedFrom([mem], paranoid) == ReplayOf(mem, paranoid).added
    ensures LastFrom([mem], paranoid, last) == Max(last, ReplayOf(mem, paranoid).maxSequence)
  {
    hide ReplayOf;
    OneMoreLog([], mem, paranoid, last);
    assert [] + [mem] == [mem] && [] + ReplayOf(mem, paranoid).added == ReplayOf(mem, paranoid).added;
  }

  lemma FromTwo(imm: Bytes, mem: Bytes, paranoid: bool, last: nat)
    ensures AddedFrom([imm, mem], paranoid) == ReplayOf(imm, paranoid).added + ReplayOf(mem, paranoid).added
    ensures LastFrom([imm, mem], paranoid, last) ==
            Max(Max(last, ReplayOf(imm, paranoid).maxSequence), ReplayOf(mem, paranoid).maxSequence)
  {
    hide ReplayOf;
    FromOne(imm, paranoid, last);
    OneMoreLog([imm], mem, paranoid, last);
    assert [imm] + [mem] == [imm, mem];
  }

  /** What the logs needed are replayed to: `updates`, numbered from the start on. */
  ghost predicate ReplayedSo(j: Journal, db: Db, logs: seq<Bytes>, paranoid: bool, updates: seq<Update>) {
    && db.logs.file in j.files && (j.immLog.Some? ==> j.immLog.value in j.files)
    && AddedFrom(logs, paranoid) == Numbered(Start(j, db), updates)
    && forall last0: nat {:trigger LastFrom(logs, paranoid, last0)} ::
         var behind, last := Start(j, db) + |updates|, LastFrom(logs, paranoid, last0);
         last0 <= last && (updates != [] ==> behind <= last + 1) && (last == last0 || last < behind)
  }

  /** The batches that survive: all of the log of the immutable memtable, and the first of the current log. */
  function Surviving(j: Journal, db: Db, encoded: map<nat, Encoded>, k: nat): seq<Update>
    requires j.immLog.Some? ==> j.immLog.value in encoded
    requires db.logs.file in encoded && k <= |encoded[db.logs.file].batches|
  {
    (if j.immLog.Some? then Flatten(encoded[j.immLog.value].batches) else [])
    + Flatten(encoded[db.logs.file].batches[..k])
  }

  /** `k` of the batches of a log are whole. */
  ghost predicate Whole(e: Encoded, cut: nat, k: nat) {
    && k <= |e.batches| == |e.records| && |Log(0, e.records[..k])| <= cut
    && (k < |e.batches| ==> cut < |Log(0, e.records[..k + 1])|)
  }

  /** A log is replayed to some updates, numbered from `first` on. */
  ghost predicate ReplayedTo(log: Bytes, paranoid: bool, first: nat, updates: seq<Update>) {
    var m := ReplayOf(log, paranoid).maxSequence;
    && ReplayOf(log, paranoid).added == Numbered(first, updates)
    && (updates != [] ==> m == first + |updates| - 1) && (m == 0 || m + 1 == first + |updates|)
  }

  lemma OneReplayed(j: Journal, db: Db, mem: Bytes, paranoid: bool, updates: seq<Update>)
    requires j.immLog.None? && db.logs.file in j.files && 1 <= Start(j, db)
    requires ReplayedTo(mem, paranoid, Start(j, db), updates)
    ensures ReplayedSo(j, db, [mem], paranoid, updates)
  {
    hide ReplayOf, AddedFrom, LastFrom;
    forall last0: nat
      ensures LastFrom([mem], paranoid, last0) == Max(last0, ReplayOf(mem, paranoid).maxSequence)
    {
      FromOne(mem, paranoid, last0);
    }
    FromOne(mem, paranoid, 0);
  }

  lemma TwoReplayed(j: Journal, db: Db, imm: Bytes, mem: Bytes, paranoid: bool, a: seq<Update>, b: seq<Update>)
    requires j.immLog.Some? && j.immLog.value in j.files && db.logs.file in j.files && 1 <= Start(j, db)
    requires ReplayedTo(imm, paranoid, Start(j, db), a) && ReplayedTo(mem, paranoid, Start(j, db) + |a|, b)
    ensures ReplayedSo(j, db, [imm, mem], paranoid, a + b)
  {
    hide ReplayOf, AddedFrom, LastFrom, Numbered;
    NumberedJoins(Start(j, db), a, b);
    forall last0: nat
      ensures LastFrom([imm, mem], paranoid, last0)
              == Max(Max(last0, ReplayOf(imm, paranoid).maxSequence), ReplayOf(mem, paranoid).maxSequence)
    {
      FromTwo(imm, mem, paranoid, last0);
    }
    FromTwo(imm, mem, paranoid, 0);
  }

  /** Both logs, or the one there is, are replayed to the batches that survive, numbered one behind the other. */
  lemma LogsReplay(disk: Disk, j: Journal, db: Db, encoded: map<nat, Encoded>, cut: nat, keys: Places, paranoid: bool)
    returns (k: nat)
    requires JournalOk(j, db) && LeftBehind(disk, j, db, encoded, cut, keys)
    ensures Whole(encoded[db.logs.file], cut, k)
    ensures forall n :: n in Needed(j, db) ==> Replays(disk.logs[n], paranoid)
    ensures j.immLog.Some? ==> j.immLog.value in encoded
    ensures var updates := Surviving(j, db, encoded, k);
            && ReplayedSo(j, db, Pick(disk.logs, Needed(j, db)), paranoid, updates)
            && Start(j, db) + |updates| == j.files[db.logs.file].first + |Flatten(encoded[db.logs.file].batches[..k])|
  {
    hide JournalOk, Log, Replays, ReplayedTo, ReplayedSo, Flatten, Journals.LogFile.Next;
    StartIs(j, db);
    var e, mem := encoded[db.logs.file], disk.logs[db.logs.file];
    k := OneLogReplays(mem, j.files[db.logs.file], e, cut, keys, paranoid);
    var b := Flatten(e.batches[..k]);
    var logs := Pick(disk.logs, Needed(j, db));
    if j.immLog.None? {
      assert logs == [mem] && [] + b == b;
      OneReplayed(j, db, mem, paranoid, b);
    } else {
      var n := j.immLog.value;
      assert n in Needed(j, db);
      var imm, f := disk.logs[n], encoded[n];
      assert imm == Log(0, f.records)[..|Log(0, f.records)|];
      var m := OneLogReplays(imm, j.files[n], f, |Log(0, f.records)|, keys, paranoid);
      assert f.batches[..m] == f.batches;
      NextIs(f, j.files[n], keys);
      assert logs == [imm, mem];
      TwoReplayed(j, db, imm, mem, paranoid, Flatten(f.batches), b);
    }
  }

  lemma NextIs(e: Encoded, log: LogFile, keys: Places)
    requires IsEncoded(e, log, keys)
    ensures log.Next() == log.first + |Flatten(e.batches)|
  {
    FlatOps(e.batches, keys);
  }

  lemma OneLogReplays(file: Bytes, log: LogFile, e: Encoded, cut: nat, keys: Places, paranoid: bool) returns (k: nat)
    requires IsEncoded(e, log, keys) && 1 <= log.first && cut <= |Log(0, e.records)| && file == Log(0, e.records)[..cut]
    ensures Whole(e, cut, k) && (cut == |Log(0, e.records)| ==> k == |e.batches|)
    ensures Replays(file, paranoid) && ReplayedTo(file, paranoid, log.first, Flatten(e.batches[..k]))
  {
    hide Log, Replays, ReplayOf, Committed, Flatten, Numbered;
    k := LogReplays(file, log, e, cut, keys, paranoid);
    assert k == 0 ==> Flatten(e.batches[..k]) == [] by { NoBatches(); }
  }

  lemma NoBatches()
    ensures Flatten<Update>([]) == []
  {
  }

  /**
   * The switch to a new log does not sync the one before. If a crash cuts that one too, what is recovered is without a
   * gap exactly if all its updates survive or none of the next log's does.
   */
  lemma NoGapExactly(imm: Bytes, mem: Bytes, before: LogFile, log: LogFile, f: Encoded, e: Encoded, immCut: nat, cut: nat,
                     keys: Places, paranoid: bool)
    returns (m: nat, k: nat)
    requires IsEncoded(f, before, keys) && IsEncoded(e, log, keys) && 1 <= before.first && before.Next() == log.first
    requires immCut <= |Log(0, f.records)| && imm == Log(0, f.records)[..immCut]
    requires cut <= |Log(0, e.records)| && mem == Log(0, e.records)[..cut]
    ensures Whole(f, immCut, m) && Whole(e, cut, k) && Replays(imm, paranoid) && Replays(mem, paranoid)
    ensures (exists updates :: AddedFrom([imm, mem], paranoid) == Numbered(before.first, updates))
            <==> Flatten(f.batches[..m]) == Flatten(f.batches) || Flatten(e.batches[..k]) == []
  {
    hide Log, Replays, ReplayedTo, AddedFrom, Flatten, IsEncoded, Whole, Journals.LogFile.Next;
    NextIs(f, before, keys);
    m := OneLogReplays(imm, before, f, immCut, keys, paranoid);
    k := OneLogReplays(mem, log, e, cut, keys, paranoid);
    WholeBatches(f, immCut, m);
    WholeBatches(e, cut, k);
    FlattenPrefix(f.batches, m);
    GapInLogs(imm, mem, before.first, Flatten(f.batches), Flatten(f.batches[..m]), Flatten(e.batches[..k]), paranoid);
  }

  lemma WholeBatches(e: Encoded, cut: nat, k: nat)
    requires Whole(e, cut, k)
    ensures k <= |e.batches|
  {
  }

  lemma GapInLogs(imm: Bytes, mem: Bytes, first: nat, a: seq<Update>, part: seq<Update>, b: seq<Update>, paranoid: bool)
    requires part <= a && ReplayedTo(imm, paranoid, first, part) && ReplayedTo(mem, paranoid, first + |a|, b)
    ensures (exists updates :: AddedFrom([imm, mem], paranoid) == Numbered(first, updates)) <==> part == a || b == []
  {
    hide ReplayOf, AddedFrom, LastFrom, Numbered;
    FromTwo(imm, mem, paranoid, 0);
    assert part == a[..|part|];
    GapOrNot(first, a, |part|, b);
  }

  lemma GapOrNot(first: nat, a: seq<Update>, n: nat, b: seq<Update>)
    requires n <= |a|
    ensures (exists updates :: Numbered(first, a[..n]) + Numbered(first + |a|, b) == Numbered(first, updates))
            <==> a[..n] == a || b == []
  {
    var all := Numbered(first, a[..n]) + Numbered(first + |a|, b);
    if n == |a| {
      assert a[..n] == a;
      NumberedJoins(first, a, b);
    } else if b == [] {
      assert all == Numbered(first, a[..n]);
    } else {
      assert all[n].seqno == first + |a|;
      forall updates
        ensures all != Numbered(first, updates)
      {
        assert |updates| > n ==> Numbered(first, updates)[n].seqno == first + n;
      }
    }
  }

  lemma StartIs(j: Journal, db: Db)
    requires JournalOk(j, db)
    ensures db.logs.file in j.files && 1 <= j.files[db.logs.file].first && 1 <= Start(j, db)
    ensures j.immLog.Some? ==>
      && j.immLog.value in j.files && Start(j, db) == j.files[j.immLog.value].first
      && j.files[j.immLog.value].Next() == j.files[db.logs.file].first
    ensures j.files[db.logs.file].Next() == db.lastSequence + 1
  {
  }

  /** The version recovered is loaded as it was: the contents of a table are found by its number. */
  lemma LoadedIs(db: Db, r: Recovered, tables: map<nat, seq<Entry>>)
    requires r.Recovered? && r.levels == BareLevels(db.levels)
    requires forall l, f :: 0 <= l < |db.levels| && f in db.levels[l] ==>
               f.number in tables && tables[f.number] == f.contents
    ensures AllThere(r.levels, tables) && Loaded(r.levels, tables) == db.levels
  {
    forall level, f | level in r.levels && f in level
      ensures f.number in tables
    {
      var l :| 0 <= l < |r.levels| && r.levels[l] == level;
      var t := BareOf(db.levels[l], f);
    }
    forall l | 0 <= l < |db.levels|
      ensures Loaded(r.levels, tables)[l] == db.levels[l]
    {
      forall i | 0 <= i < |db.levels[l]|
        ensures Loaded(r.levels, tables)[l][i] == db.levels[l][i]
      {
        assert db.levels[l][i] in db.levels[l];
      }
    }
  }

  /** The entries of the database up to a sequence number. */
  ghost function UpTo(all: set<Entry>, last: nat): set<Entry> { set e | e in all && e.key.seqno <= last }

  /** The last sequence number in the first `k` batches of the current log. */
  function LastOf(j: Journal, db: Db, encoded: map<nat, Encoded>, k: nat): int
    requires db.logs.file in j.files && db.logs.file in encoded && k <= |encoded[db.logs.file].batches|
  {
    j.files[db.logs.file].first + |Flatten(encoded[db.logs.file].batches[..k])| - 1
  }

  lemma CutOps(updates: seq<Update>, n: nat, first: nat, keys: Places)
    requires n <= |updates| && first + n >= 1
    ensures UpTo(OpEntries(Ops(updates, keys), first), first + n - 1) == OpEntries(Ops(updates[..n], keys), first)
  {
    hide OpEntries;
    assert Ops(updates, keys) == Ops(updates[..n], keys) + Ops(updates[n..], keys);
    OpEntriesJoin(Ops(updates[..n], keys), Ops(updates[n..], keys), first);
    OpEntriesBounds(Ops(updates[..n], keys), first);
    OpEntriesBounds(Ops(updates[n..], keys), first + n);
  }

  /** What survives is what the database held up to the last sequence number that survives. */
  lemma SurvivingAre(j: Journal, db: Db, encoded: map<nat, Encoded>, k: nat, keys: Places)
    requires JournalOk(j, db) && db.logs.file in encoded && IsEncoded(encoded[db.logs.file], j.files[db.logs.file], keys)
    requires j.immLog.Some? ==>
      j.immLog.value in encoded && IsEncoded(encoded[j.immLog.value], j.files[j.immLog.value], keys)
    requires k <= |encoded[db.logs.file].batches|
    ensures LastOf(j, db, encoded, k) >= 0 && LastOf(j, db, encoded, k) <= db.lastSequence
    ensures EntriesFrom(db.levels, 0) + OpEntries(Ops(Surviving(j, db, encoded, k), keys), Start(j, db))
            == UpTo(db.Contents(), LastOf(j, db, encoded, k))
  {
    hide OpEntries, EntriesFrom, Committed, Flatten;
    StartIs(j, db);
    var file, e := j.files[db.logs.file], encoded[db.logs.file];
    var all, b := Flatten(e.batches), Flatten(e.batches[..k]);
    FlattenPrefix(e.batches, k);
    FlatOps(e.batches, keys);
    assert all[..|b|] == b;
    CutOps(all, |b|, file.first, keys);
    var last := LastOf(j, db, encoded, k);
    OpEntriesBounds(Ops(b, keys), file.first);
    if j.immLog.Some? {
      var f := encoded[j.immLog.value];
      var a := Flatten(f.batches);
      FlatOps(f.batches, keys);
      assert Ops(a + b, keys) == Ops(a, keys) + Ops(b, keys);
      OpEntriesJoin(Ops(a, keys), Ops(b, keys), Start(j, db));
      OpEntriesBounds(Ops(a, keys), Start(j, db));
      ContentsAre(j, db, OpEntries(Ops(a, keys), Start(j, db)), OpEntries(Ops(all, keys), file.first), last);
    } else {
      assert [] + b == b;
      ContentsAre(j, db, {}, OpEntries(Ops(all, keys), file.first), last);
    }
  }

  lemma ContentsAre(j: Journal, db: Db, imm: set<Entry>, mem: set<Entry>, last: nat)
    requires EntrySet(db.mem) == mem && EntrySet(db.Imm()) == imm
    requires forall e :: e in imm + EntriesFrom(db.levels, 0) ==> e.key.seqno <= last
    ensures UpTo(db.Contents(), last) == EntriesFrom(db.levels, 0) + imm + UpTo(mem, last)
  {
    hide EntriesFrom;
  }

  /** A reader who may see everything up to a number sees what a reader at that number sees. */
  lemma ReadsUpTo(all: set<Entry>, u: UserKey, last: nat, s: nat, v: Option<Bytes>)
    requires forall e :: e in UpTo(all, last) ==> e.key.seqno <= s
    ensures ReadsAs(UpTo(all, last), u, s, v) <==> ReadsAs(all, u, last, v)
  {
    var part := UpTo(all, last);
    forall e
      ensures IsNewest(part, u, s, e) <==> IsNewest(all, u, last, e)
    {
      if IsNewest(part, u, s, e) {
        forall x | x in all && Visible(x, u, last)
          ensures x.key.seqno <= e.key.seqno
        {
          assert x in part;
        }
      }
    }
    assert NoneVisible(part, u, s) <==> NoneVisible(all, u, last) by {
      assert forall e :: e in part && Visible(e, u, s) ==> e in all && Visible(e, u, last);
      assert forall e :: e in all && Visible(e, u, last) ==> e in part && Visible(e, u, s);
    }
  }

  /** The logs a listing gives for the numbers in the manifest. */
  ghost predicate Listed(names: seq<nat>, disk: Disk, r: Recovered)
    requires r.Recovered?
  {
    Ascending(names) && forall n :: n in names <==> n in disk.logs && (n >= r.logNumber || n == r.prevLogNumber)
  }

  /** `at` is a state whose version and log numbers the database still has. */
  ghost predicate SameVersion(at: Db, db: Db) {
    && at.levels == db.levels && at.logs.oldest == db.logs.oldest && at.logs.prev == db.logs.prev
    && at.lastSequence <= db.lastSequence
  }

  lemma LeftAreFound(db: Db, j: Journal, at: Db, r: Recovered, disk: Disk, encoded: map<nat, Encoded>, cut: nat,
                     keys: Places, names: seq<nat>)
    requires JournalOk(j, db) && LeftBehind(disk, j, db, encoded, cut, keys)
    requires RecoversState(r, at) && SameVersion(at, db) && Listed(names, disk, r)
    ensures AllThere(r.levels, disk.tables) && Loaded(r.levels, disk.tables) == db.levels
    ensures names == Needed(j, db) && forall n :: n in names ==> n in disk.logs
  {
    hide JournalOk, BareLevels, AllThere, Loaded, IsEncoded;
    LoadedIs(db, r, disk.tables);
    NeededAreFound(disk, j, db, names);
  }

  /** What a crash leaves behind can be opened. */
  lemma OpenSucceeds(db: Db, j: Journal, at: Db, r: Recovered, disk: Disk, encoded: map<nat, Encoded>, cut: nat,
                     keys: Places, paranoid: bool, names: seq<nat>)
    requires JournalOk(j, db) && LeftBehind(disk, j, db, encoded, cut, keys)
    requires RecoversState(r, at) && SameVersion(at, db) && Listed(names, disk, r)
    ensures AllThere(r.levels, disk.tables) && forall n :: n in names ==> n in disk.logs && Replays(disk.logs[n], paranoid)
  {
    hide JournalOk, BareLevels, Replays, AllThere, LeftBehind, Listed, ReplayedSo, Whole;
    LeftAreFound(db, j, at, r, disk, encoded, cut, keys, names);
    var k := LogsReplay(disk, j, db, encoded, cut, keys, paranoid);
  }

  /** The logs of a database just opened: a new one, and older ones that are no longer needed. */
  function NewJournal(db: Db): Journal { Journal(map[db.logs.file := LogFile(db.lastSequence + 1, [])], None) }

  lemma OpenedIsLogged(db: Db)
    requires db.Inv() && Empty(db) && db.logs == LogNumbers(db.logs.file, db.logs.file, 0)
    requires 0 < db.logs.file < db.nextFileNumber
    ensures JournalOk(NewJournal(db), db)
  {
    hide EntriesFrom, VersionOk, UniqueNumbers, LevelsOrdered;
    OpEntriesAre([], db.lastSequence + 1);
    assert Flatten<Op>([]) == [] && OpEntries([], db.lastSequence + 1) == {} && EntrySet([]) == {};
    assert forall e :: e in EntriesFrom(db.levels, 0) ==> e in db.Contents();
  }

  lemma OpenedInOrder(db: Db, j: Journal, at: Db, r: Recovered, tables: map<nat, seq<Entry>>, logs: seq<Bytes>, after: Db,
                      manifest: seq<Edit>, parts: seq<seq<Added>>, numbers: seq<nat>, sizes: nat -> nat, keys: Places,
                      paranoid: bool, updates: seq<Update>)
    requires db.Inv() && JournalOk(j, db) && at.Inv() && RecoversState(r, at) && SameVersion(at, db)
    requires AllThere(r.levels, tables) && Loaded(r.levels, tables) == db.levels
    requires ReplayedSo(j, db, logs, paranoid, updates) && Start(j, db) + |updates| <= db.lastSequence + 1
    requires IsOpened(after, manifest, r, tables, logs, parts, numbers, sizes, keys, paranoid)
    ensures after.Inv()
    ensures after.Contents() == EntriesFrom(db.levels, 0) + OpEntries(Ops(updates, keys), Start(j, db))
    ensures Opens(manifest[0], db.levels, TablesOf(parts, numbers, sizes, keys), after)
    ensures JournalOk(NewJournal(after), after)
  {
    hide Db.Inv, TablesOf, Opens, BareLevels, Loaded, AllThere, MemLogged, ImmLogged, NumbersTell, Db.Contents, OpEntries;
    StartIs(j, db);
    NumbersStayBelow(at);
    SequencesBounded(at);
    LevelsAreContents(at);
    LastIsBounded(db);
    assert LastFrom(logs, paranoid, r.lastSequence) == after.lastSequence;
    OpenedIsInOrder(after, manifest, r, tables, logs, parts, numbers, sizes, keys, paranoid, db, Start(j, db), updates);
    OpenedIsLogged(after);
  }

  lemma LevelsAreContents(db: Db)
    ensures EntriesFrom(db.levels, 0) <= db.Contents()
  {
  }

  lemma LastIsBounded(db: Db)
    requires db.Inv()
    ensures db.lastSequence < MAX_SEQUENCE
  {
  }

  /** The database opened reads, at present, what the crashed one read at the end of the batches that survive. */
  ghost predicate GoesOnFrom(j: Journal, db: Db, encoded: map<nat, Encoded>, k: nat, after: Db)
    requires db.logs.file in j.files && db.logs.file in encoded && k <= |encoded[db.logs.file].batches|
  {
    var last := LastOf(j, db, encoded, k);
    && 0 <= last <= db.lastSequence && after.Inv() && JournalOk(NewJournal(after), after)
    && after.Contents() == UpTo(db.Contents(), last)
    && forall u, v :: ReadsAs(after.Contents(), u, after.lastSequence, v) <==> ReadsAs(db.Contents(), u, last, v)
  }

  ghost predicate GoesOn(j: Journal, db: Db, encoded: map<nat, Encoded>, cut: nat, after: Db) {
    && db.logs.file in j.files && db.logs.file in encoded
    && exists k :: Whole(encoded[db.logs.file], cut, k) && GoesOnFrom(j, db, encoded, k, after)
  }

  /** The new manifest begins with the version recovered and the edit that adds the tables made of the logs. */
  ghost predicate BeginsAnew(manifest: seq<Edit>, db: Db, parts: seq<seq<Added>>, numbers: seq<nat>, sizes: nat -> nat,
                             keys: Places, after: Db) {
    |manifest| == 1 && |parts| == |numbers| && Opens(manifest[0], db.levels, TablesOf(parts, numbers, sizes, keys), after)
  }

  /**
   * After a crash the database that is opened is in order. It holds exactly what the crashed one held up to the end of
   * the last batch that is whole in the current log, so that reading it at present is reading the crashed one at that
   * sequence number; and it is a database as any other, ready for the next crash.
   */
  lemma DatabaseSurvives(db: Db, j: Journal, at: Db, r: Recovered, disk: Disk, encoded: map<nat, Encoded>, cut: nat,
                         keys: Places, paranoid: bool, names: seq<nat>, after: Db, manifest: seq<Edit>,
                         parts: seq<seq<Added>>, numbers: seq<nat>, sizes: nat -> nat)
    returns (k: nat)
    requires db.Inv() && JournalOk(j, db) && LeftBehind(disk, j, db, encoded, cut, keys)
    requires at.Inv() && RecoversState(r, at) && SameVersion(at, db) && Listed(names, disk, r)
    requires IsOpened(after, manifest, r, disk.tables, Pick(disk.logs, names), parts, numbers, sizes, keys, paranoid)
    ensures db.logs.file in j.files && db.logs.file in encoded
    ensures Whole(encoded[db.logs.file], cut, k) && GoesOnFrom(j, db, encoded, k, after)
    ensures BeginsAnew(manifest, db, parts, numbers, sizes, keys, after)
  {
    hide Db.Inv, JournalOk, IsEncoded, TablesOf, Opens, BareLevels, EntriesFrom, ReadsAs, Loaded, AllThere, Replays;
    LeftAreFound(db, j, at, r, disk, encoded, cut, keys, names);
    k := LogsReplay(disk, j, db, encoded, cut, keys, paranoid);
    SurvivingAre(j, db, encoded, k, keys);
    assert names == Needed(j, db);
    var updates := Surviving(j, db, encoded, k);
    OpenedInOrder(db, j, at, r, disk.tables, Pick(disk.logs, names), after, manifest, parts, numbers, sizes, keys, paranoid,
                  updates);
    var last := LastOf(j, db, encoded, k);
    SequencesBounded(after);
    forall u, v
      ensures ReadsAs(after.Contents(), u, after.lastSequence, v) <==> ReadsAs(db.Contents(), u, last, v)
    {
      ReadsUpTo(db.Contents(), u, last, after.lastSequence, v);
    }
  }

  // The manifest at the crash

  /** A record that is not whole is as if it had not been begun. */
  lemma TornRecord(records: seq<Bytes>, next: Bytes, cut: nat)
    requires |Log(0, records)| <= cut < |Log(0, records + [next])|
    ensures ReadAll(Log(0, records + [next])[..cut], 0, true).0 == ReadAll(Log(0, records), 0, true).0
  {
    hide Log, ReadAll;
    var all := records + [next];
    var k := CrashPrefix(all, cut, true);
    var m := CrashPrefix(records, |Log(0, records)|, true);
    assert Log(0, records)[..|Log(0, records)|] == Log(0, records);
    assert all[..|records|] == records && all[..|all|] == all && records[..|records|] == records;
    if k < |records| {
      LogGrows(all, k + 1, |records|);
    }
    if m < |records| {
      LogGrows(records, m + 1, |records|);
    }
  }

  predicate Quiet(steps: seq<Step>) { forall step :: step in steps ==> !ChangesFiles(step) }

  lemma {:induction false} QuietSteps(db: Db, steps: seq<Step>)
    requires db.Inv() && IsRun(db, steps) && Quiet(steps)
    ensures SameVersion(db, EndOf(db, steps))
    decreases |steps|
  {
    hide Db.Inv, AddSome, EntriesFrom;
    if steps != [] {
      StepKeepsInv(db, steps[0]);
      assert steps[0] in steps && forall step :: step in steps[1..] ==> step in steps;
      QuietSteps(Apply(db, steps[0]), steps[1..]);
    }
  }

  /** No step behind the part of a run that has all its edits changes files. */
  lemma {:induction false} QuietAfter(db: Db, steps: seq<Step>, edits: seq<Edit>, k: nat)
    requires IsRun(db, steps) && OnRecord(db, steps, edits) && k <= |steps|
    requires IsRun(db, steps[..k]) && OnRecord(db, steps[..k], edits)
    ensures IsRun(EndOf(db, steps[..k]), steps[k..]) && EndOf(EndOf(db, steps[..k]), steps[k..]) == EndOf(db, steps)
    ensures Quiet(steps[k..])
    decreases |steps|
  {
    hide Allowed, Apply, Recorded;
    if steps == [] {
    } else if k == 0 {
      var next := Apply(db, steps[0]);
      assert steps[..0] == [] && steps[0..] == steps;
      assert steps[1..][..0] == [] && IsRun(next, []);
      QuietAfter(next, steps[1..], edits, 0);
      assert steps == [steps[0]] + steps[1..] && steps[1..][0..] == steps[1..];
    } else {
      assert steps[..k][1..] == steps[1..][..k - 1] && steps[1..][k - 1..] == steps[k..];
      QuietAfter(Apply(db, steps[0]), steps[1..], if ChangesFiles(steps[0]) then edits[1..] else edits, k - 1);
    }
  }

  /** The edits of the run so far are whole in the manifest, the record behind them is not. */
  lemma VersionSurvives(levels: seq<seq<Table>>, files: seq<Table>, db: Db, steps: seq<Step>, all: seq<Edit>,
                        comparator: Bytes, pointers: seq<(nat, InternalKey)>, keys: Places, next: Bytes, cut: nat,
                        r: Recovered)
    returns (at: Db)
    requires db.Inv() && IsRun(db, steps) && ManifestOf(all, levels, files, db, steps, comparator, pointers)
    requires AllStorable(all, comparator, keys)
    requires var records := Records(all, comparator, keys);
             && |Log(0, records)| <= cut < |Log(0, records + [next])|
             && RecoveredFromBytes(r, Log(0, records + [next])[..cut], comparator, keys)
    ensures at.Inv() && RecoversState(r, at) && SameVersion(at, EndOf(db, steps))
  {
    hide Db.Inv, Log, ReadAll, IsRun, EndOf, OnRecord, AllStorable, Opens, RecoveredFrom, DecodeRecords;
    var records := Records(all, comparator, keys);
    TornRecord(records, next, cut);
    assert Log(0, records)[..|Log(0, records)|] == Log(0, records);
    LogGrows(records, 2, |records|);
    assert records[..|records|] == records;
    var j, k := RecoversTheDatabase(levels, files, db, steps, all, comparator, pointers, keys, |Log(0, records)|, r);
    if j + 2 < |all| { LogGrows(records, j + 3, |records|); }
    assert all[2..][..j] == all[2..];
    QuietAfter(db, steps, all[2..], k);
    RunKeepsInv(db, steps[..k]);
    at := EndOf(db, steps[..k]);
    QuietSteps(at, steps[k..]);
  }

  /**
   * A crash at any point of any run of the database, with the manifest cut in the record behind the edits of the run,
   * the current log cut anywhere and older logs deleted or not: the database can be opened, and reading the one that is
   * opened is reading the crashed one at the end of the last batch that is whole in the log.
   */
  lemma CrashIsSurvived(levels: seq<seq<Table>>, files: seq<Table>, db: Db, j: Journal, steps: seq<Step>, all: seq<Edit>,
                        comparator: Bytes, pointers: seq<(nat, InternalKey)>, keys: Places, next: Bytes, manifestCut: nat,
                        r: Recovered, disk: Disk, encoded: map<nat, Encoded>, cut: nat, paranoid: bool, names: seq<nat>)
    requires db.Inv() && JournalOk(j, db) && IsRun(db, steps)
    requires ManifestOf(all, levels, files, db, steps, comparator, pointers) && AllStorable(all, comparator, keys)
    requires var records := Records(all, comparator, keys);
             && |Log(0, records)| <= manifestCut < |Log(0, records + [next])|
             && RecoveredFromBytes(r, Log(0, records + [next])[..manifestCut], comparator, keys)
    requires LeftBehind(disk, LoggedBy(j, db, steps), EndOf(db, steps), encoded, cut, keys)
    requires r.Recovered? ==> Listed(names, disk, r)
    ensures r.Recovered? && AllThere(r.levels, disk.tables)
    ensures forall n :: n in names ==> n in disk.logs && Replays(disk.logs[n], paranoid)
    ensures forall after, manifest, parts, numbers, sizes {:trigger
              IsOpened(after, manifest, r, disk.tables, Pick(disk.logs, names), parts, numbers, sizes, keys, paranoid)} ::
              IsOpened(after, manifest, r, disk.tables, Pick(disk.logs, names), parts, numbers, sizes, keys, paranoid) ==>
              GoesOn(LoggedBy(j, db, steps), EndOf(db, steps), encoded, cut, after)
              && BeginsAnew(manifest, EndOf(db, steps), parts, numbers, sizes, keys, after)
  {
    hide Db.Inv, JournalOk, LeftBehind, Log, IsRun, EndOf, LoggedBy, ManifestOf, AllStorable, RecoveredFromBytes, AllThere;
    hide Replays, Listed, IsOpened, SameVersion, RecoversState, BeginsAnew, LastOf, UpTo;
    var now, logs := EndOf(db, steps), LoggedBy(j, db, steps);
    var at := VersionSurvives(levels, files, db, steps, all, comparator, pointers, keys, next, manifestCut, r);
    RunIsLogged(j, db, steps);
    IsRecovered(r, at);
    OpenSucceeds(now, logs, at, r, disk, encoded, cut, keys, paranoid, names);
    forall after, manifest, parts, numbers, sizes |
      IsOpened(after, manifest, r, disk.tables, Pick(disk.logs, names), parts, numbers, sizes, keys, paranoid)
      ensures GoesOn(logs, now, encoded, cut, after)
              && BeginsAnew(manifest, now, parts, numbers, sizes, keys, after)
    {
      var k := DatabaseSurvives(now, logs, at, r, disk, encoded, cut, keys, paranoid, names, after, manifest, parts,
                                numbers, sizes);
    }
  }

  lemma IsRecovered(r: Recovered, at: Db)
    requires RecoversState(r, at)
    ensures r.Recovered?
  {
  }
}
