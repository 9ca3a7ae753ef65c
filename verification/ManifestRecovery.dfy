/** Recovering the current version from a manifest (db/version_set.cc, VersionSet::Recover and WriteSnapshot). */
module ManifestRecovery {
  import opened Wrappers
  import opened InternalKeys
  import opened Coding
  import opened KeyCoding
  import opened Logs
  import opened LogReading
  import opened ManifestCodec
  import opened Manifests
  import V = Versions

  type Level = seq<FileMetaData>

  datatype Recovered =
    | Recovered(levels: seq<Level>, compactPointer: V.Pointers, nextFileNumber: nat, lastSequence: nat, logNumber: nat,
                prevLogNumber: nat)
    | Failed

  /** The edits of a manifest's records, `None` if one is corrupt or written under another comparator. */
  function DecodeRecords(records: seq<Bytes>, comparator: Bytes, keys: Places): Option<seq<Edit>> {
    if records == [] then Some([])
    else
      match DecodeRecords(records[..|records| - 1], comparator, keys)
      case None => None
      case Some(edits) =>
        match DecodeEdit(records[|records| - 1], EMPTY, keys)
        case Corrupt(_) => None
        case Good(edit) => if edit.comparator.Some? && edit.comparator.value != comparator then None else Some(edits + [edit])
  }

  /** The four numbers an edit may carry. */
  datatype Numbers = Numbers(log: Option<nat>, prevLog: Option<nat>, next: Option<nat>, last: Option<nat>)

  const NO_NUMBERS := Numbers(None, None, None, None)

  function Later(a: Option<nat>, b: Option<nat>): Option<nat> { if b.Some? then b else a }

  function NumbersOf(edits: seq<Edit>): Numbers {
    if edits == [] then NO_NUMBERS
    else
      var n, e := NumbersOf(edits[..|edits| - 1]), edits[|edits| - 1];
      Numbers(Later(n.log, e.logNumber), Later(n.prevLog, e.prevLogNumber), Later(n.next, e.nextFileNumber),
              Later(n.last, e.lastSequence))
  }

  /** The compaction pointers after some edits. */
  function PointersAfter(pointers: V.Pointers, edits: seq<Edit>): V.Pointers {
    if edits == [] then pointers
    else V.Pointed(PointersAfter(pointers, edits[..|edits| - 1]), edits[|edits| - 1].compactPointers)
  }

  /** What recovery makes of the edits. */
  ghost predicate RecoveredFrom(r: Recovered, edits: seq<Edit>) {
    var n := NumbersOf(edits);
    if n.next.None? || n.log.None? || n.last.None? then r == Failed
    else
      && r.Recovered? && |r.levels| == V.NUM_LEVELS
      && (forall l :: 0 <= l < V.NUM_LEVELS ==> r.levels[l] == OneBuilder(edits, l))
      && r.compactPointer == PointersAfter(V.NO_POINTERS, edits)
      && r.nextFileNumber == n.next.value && r.logNumber == n.log.value && r.lastSequence == n.last.value
      && r.prevLogNumber == if n.prevLog.Some? then n.prevLog.value else 0
  }

  /** What recovery makes of the bytes of a manifest. */
  ghost predicate RecoveredFromBytes(r: Recovered, file: Bytes, comparator: Bytes, keys: Places) {
    match DecodeRecords(ReadAll(file, 0, true).0, comparator, keys)
    case None => r == Failed
    case Some(edits) => RecoveredFrom(r, edits)
  }

  /** A record that can be recovered from: whole, and not written under another comparator. */
  ghost predicate IsEdit(record: Bytes, comparator: Bytes, keys: Places) {
    && DecodeEdit(record, EMPTY, keys).Good?
    && var name := DecodeEdit(record, EMPTY, keys).edit.comparator; name.Some? ==> name.value == comparator
  }

  /** The last of some edits to say anything about a number. */
  ghost predicate IsLast(edits: seq<Edit>, number: Edit -> Option<nat>, v: Option<nat>) {
    if v.None? then forall e :: e in edits ==> number(e) == None
    else exists i :: 0 <= i < |edits| && number(edits[i]) == v && forall j :: i < j < |edits| ==> number(edits[j]) == None
  }

  lemma {:induction false} DecodedExactly(records: seq<Bytes>, comparator: Bytes, keys: Places)
    ensures var edits := DecodeRecords(records, comparator, keys);
            && (edits.Some? <==> forall i :: 0 <= i < |records| ==> IsEdit(records[i], comparator, keys))
            && (edits.Some? ==> |edits.value| == |records| && forall i :: 0 <= i < |records| ==>
                                  DecodeEdit(records[i], EMPTY, keys) == Good(edits.value[i]))
  {
    hide DecodeEdit;
    if records != [] {
      var front, last := records[..|records| - 1], records[|records| - 1];
      DecodedExactly(front, comparator, keys);
      if forall i :: 0 <= i < |records| ==> IsEdit(records[i], comparator, keys) {
        assert forall i :: 0 <= i < |front| ==> front[i] == records[i];
        assert IsEdit(records[|records| - 1], comparator, keys);
      }
      if DecodeRecords(records, comparator, keys).Some? {
        assert IsEdit(last, comparator, keys);
        forall i | 0 <= i < |records|
          ensures IsEdit(records[i], comparator, keys)
        {
          if i < |front| { assert IsEdit(front[i], comparator, keys); }
        }
      }
    }
  }

  lemma LastOfMore(edits: seq<Edit>, e: Edit, number: Edit -> Option<nat>, v: Option<nat>)
    requires IsLast(edits, number, v)
    ensures IsLast(edits + [e], number, Later(v, number(e)))
  {
    var all := edits + [e];
    assert all[|edits|] == e;
    if number(e).None? && v.Some? {
      var i :| 0 <= i < |edits| && number(edits[i]) == v && forall j :: i < j < |edits| ==> number(edits[j]) == None;
      assert all[i] == edits[i];
    }
  }

  lemma {:induction false} NumbersAreLast(edits: seq<Edit>)
    ensures var n := NumbersOf(edits);
            && IsLast(edits, (e: Edit) => e.logNumber, n.log) && IsLast(edits, (e: Edit) => e.prevLogNumber, n.prevLog)
            && IsLast(edits, (e: Edit) => e.nextFileNumber, n.next) && IsLast(edits, (e: Edit) => e.lastSequence, n.last)
  {
    if edits != [] {
      var front, e := edits[..|edits| - 1], edits[|edits| - 1];
      NumbersAreLast(front);
      hide IsLast;
      var n := NumbersOf(front);
      LastOfMore(front, e, (e: Edit) => e.logNumber, n.log);
      LastOfMore(front, e, (e: Edit) => e.prevLogNumber, n.prevLog);
      LastOfMore(front, e, (e: Edit) => e.nextFileNumber, n.next);
      LastOfMore(front, e, (e: Edit) => e.lastSequence, n.last);
      assert front + [e] == edits;
    }
  }

  /** Some record says something about a number. */
  ghost predicate Says(records: seq<Bytes>, keys: Places, number: Edit -> Option<nat>) {
    exists i :: 0 <= i < |records| && var r := DecodeEdit(records[i], EMPTY, keys); r.Good? && number(r.edit).Some?
  }

  /**
   * Recovery goes through exactly if every record is an edit, none is written under another comparator, and the next
   * file, the log and the last sequence number are each in one of them.
   */
  lemma RecoversExactly(records: seq<Bytes>, comparator: Bytes, keys: Places, r: Recovered)
    requires match DecodeRecords(records, comparator, keys)
             case None => r == Failed
             case Some(edits) => RecoveredFrom(r, edits)
    ensures r.Recovered? <==>
      && (forall i :: 0 <= i < |records| ==> IsEdit(records[i], comparator, keys))
      && Says(records, keys, (e: Edit) => e.nextFileNumber) && Says(records, keys, (e: Edit) => e.logNumber)
      && Says(records, keys, (e: Edit) => e.lastSequence)
  {
    hide DecodeEdit, DecodeRecords, IsEdit, OneBuilder, PointersAfter, NumbersOf;
    DecodedExactly(records, comparator, keys);
    var d := DecodeRecords(records, comparator, keys);
    if d.Some? {
      NumbersAreLast(d.value);
      var n := NumbersOf(d.value);
      hide RecoveredFrom, IsLast, Says;
      SaidExactly(records, keys, d.value, (e: Edit) => e.nextFileNumber, n.next);
      SaidExactly(records, keys, d.value, (e: Edit) => e.logNumber, n.log);
      SaidExactly(records, keys, d.value, (e: Edit) => e.lastSequence, n.last);
      assert r.Recovered? <==> n.next.Some? && n.log.Some? && n.last.Some? by { NumbersNeeded(r, d.value); }
    }
  }

  lemma NumbersNeeded(r: Recovered, edits: seq<Edit>)
    requires RecoveredFrom(r, edits)
    ensures var n := NumbersOf(edits); r.Recovered? <==> n.next.Some? && n.log.Some? && n.last.Some?
  {
  }

  lemma SaidExactly(records: seq<Bytes>, keys: Places, edits: seq<Edit>, number: Edit -> Option<nat>, v: Option<nat>)
    requires |edits| == |records| && IsLast(edits, number, v)
    requires forall i :: 0 <= i < |records| ==> DecodeEdit(records[i], EMPTY, keys) == Good(edits[i])
    ensures Says(records, keys, number) <==> v.Some?
  {
    hide DecodeEdit;
    if v.Some? {
      var i :| 0 <= i < |edits| && number(edits[i]) == v;
      assert DecodeEdit(records[i], EMPTY, keys) == Good(edits[i]);
    }
  }

  /** Decoding only lets known levels through. */
  lemma {:induction false} DecodedLevels(b: Bytes, edit: Edit, keys: Places)
    requires V.LevelsInRange(edit)
    ensures DecodeEdit(b, edit, keys).Good? ==> V.LevelsInRange(DecodeEdit(b, edit, keys).edit)
    decreases |b|
  {
    if b != [] {
      FieldConsumes(b, keys);
      match GetField(b, keys)
      case Bad(_) =>
      case Got(f, rest) =>
        FieldLevels(b, keys);
        AddedLevels(edit, f);
        DecodedLevels(rest, AddField(edit, f), keys);
    }
  }

  ghost predicate LevelOk(f: Field) {
    match f
    case CompactPointer(level, _) => level < V.NUM_LEVELS
    case DeletedFile(level, _) => level < V.NUM_LEVELS
    case NewFile(level, _) => level < V.NUM_LEVELS
    case _ => true
  }

  lemma FieldLevels(b: Bytes, keys: Places)
    ensures GetField(b, keys).Got? ==> LevelOk(GetField(b, keys).field)
  {
    hide GetVarint32, GetVarint64, GetLengthPrefixed, GetKey, GetFile;
  }

  lemma AddedLevels(edit: Edit, f: Field)
    requires V.LevelsInRange(edit) && LevelOk(f)
    ensures V.LevelsInRange(AddField(edit, f))
  {
  }

  /** Replays the records of a manifest through one builder over an empty version. */
  method Recover(records: seq<Bytes>, comparator: Bytes, keys: Places) returns (r: Recovered)
    ensures match DecodeRecords(records, comparator, keys)
            case None => r == Failed
            case Some(edits) => RecoveredFrom(r, edits)
  {
    hide DecodeRecords, NumbersOf, ApplyAll, PointersAfter;
    var builder := new V.Builder(seq(V.NUM_LEVELS, _ => []), V.NO_POINTERS);
    var ok, n, edits := ApplyRecords(builder, records, comparator, keys);
    if !ok || n.next.None? || n.log.None? || n.last.None? {
      return Failed;
    }
    var levels := builder.SaveTo();
    r := Recovered(levels, builder.compactPointer, n.next.value, n.last.value, n.log.value,
                   if n.prevLog.Some? then n.prevLog.value else 0);
  }

  method ApplyRecords(builder: V.Builder<()>, records: seq<Bytes>, comparator: Bytes, keys: Places)
    returns (ok: bool, n: Numbers, ghost edits: seq<Edit>)
    requires builder.Valid() && (forall l :: 0 <= l < V.NUM_LEVELS ==> builder.levels[l] == NoFiles())
    requires builder.compactPointer == V.NO_POINTERS
    modifies builder
    ensures DecodeRecords(records, comparator, keys) == if ok then Some(edits) else None
    ensures builder.Valid() && n == NumbersOf(edits) && builder.compactPointer == PointersAfter(V.NO_POINTERS, edits)
    ensures ok ==> forall l :: 0 <= l < V.NUM_LEVELS ==> builder.levels[l] == ApplyAll(edits, l)
  {
    ok, n, edits := true, NO_NUMBERS, [];
    for i := 0 to |records|
      invariant builder.Valid() && DecodeRecords(records[..i], comparator, keys) == Some(edits)
      invariant forall l :: 0 <= l < V.NUM_LEVELS ==> builder.levels[l] == ApplyAll(edits, l)
      invariant n == NumbersOf(edits) && builder.compactPointer == PointersAfter(V.NO_POINTERS, edits)
    {
      hide DecodeEdit, ApplyAll, NumbersOf, PointersAfter, DecodeRecords, V.ApplyToLevel;
      NextRecord(records, i, comparator, keys);
      var decoded := DecodeFrom(records[i], keys);
      if decoded.Corrupt? || (decoded.edit.comparator.Some? && decoded.edit.comparator.value != comparator) {
        FailsFrom(records, i + 1, comparator, keys);
        ok := false;
        return;
      }
      var edit := decoded.edit;
      DecodedLevels(records[i], EMPTY, keys);
      builder.Apply(edit);
      n := Numbers(Later(n.log, edit.logNumber), Later(n.prevLog, edit.prevLogNumber),
                   Later(n.next, edit.nextFileNumber), Later(n.last, edit.lastSequence));
      OneMoreEdit(edits, edit);
      edits := edits + [edit];
    }
    assert records[..|records|] == records;
  }

  lemma NextRecord(records: seq<Bytes>, i: nat, comparator: Bytes, keys: Places)
    requires i < |records|
    ensures DecodeRecords(records[..i + 1], comparator, keys) ==
            match DecodeRecords(records[..i], comparator, keys)
            case None => None
            case Some(edits) =>
              match DecodeEdit(records[i], EMPTY, keys)
              case Corrupt(_) => None
              case Good(edit) => if edit.comparator.Some? && edit.comparator.value != comparator then None else Some(edits + [edit])
  {
    hide DecodeEdit;
    assert records[..i + 1][..i] == records[..i];
  }

  lemma OneMoreEdit(edits: seq<Edit>, edit: Edit)
    ensures forall l: nat :: ApplyAll(edits + [edit], l) == V.ApplyToLevel(ApplyAll(edits, l), edit, l)
    ensures forall p :: PointersAfter(p, edits + [edit]) == V.Pointed(PointersAfter(p, edits), edit.compactPointers)
    ensures var n := NumbersOf(edits);
            NumbersOf(edits + [edit]) == Numbers(Later(n.log, edit.logNumber), Later(n.prevLog, edit.prevLogNumber),
                                                 Later(n.next, edit.nextFileNumber), Later(n.last, edit.lastSequence))
  {
    assert (edits + [edit])[..|edits|] == edits;
  }

  lemma {:induction false} FailsFrom(records: seq<Bytes>, i: nat, comparator: Bytes, keys: Places)
    requires i <= |records| && DecodeRecords(records[..i], comparator, keys) == None
    ensures DecodeRecords(records, comparator, keys) == None
    decreases |records|
  {
    if i == |records| {
      assert records[..i] == records;
    } else {
      assert records[..|records| - 1][..i] == records[..i];
      FailsFrom(records[..|records| - 1], i, comparator, keys);
    }
  }

  // What is written is what is recovered

  ghost predicate AllStorable(edits: seq<Edit>, comparator: Bytes, keys: Places) {
    forall i :: 0 <= i < |edits| ==>
      Storable(edits[i], keys) && (edits[i].comparator.Some? ==> edits[i].comparator.value == comparator)
  }

  /** The records that LogAndApply writes for some edits. */
  ghost function Records(edits: seq<Edit>, comparator: Bytes, keys: Places): seq<Bytes>
    requires AllStorable(edits, comparator, keys)
  {
    seq(|edits|, i requires 0 <= i < |edits| => EncodeFields(Fields(edits[i]), keys))
  }

  lemma {:induction false} RecordsDecode(edits: seq<Edit>, comparator: Bytes, keys: Places)
    requires AllStorable(edits, comparator, keys)
    ensures DecodeRecords(Records(edits, comparator, keys), comparator, keys) == Some(edits)
  {
    hide Storable, Fields, EncodeFields, DecodeEdit;
    if edits != [] {
      var front, last := edits[..|edits| - 1], edits[|edits| - 1];
      RecordsDecode(front, comparator, keys);
      assert Records(edits, comparator, keys)[..|edits| - 1] == Records(front, comparator, keys);
      EditRoundTrip(last, keys);
      assert front + [last] == edits;
    }
  }

  /** Every edit LogAndApply writes carries all four numbers. */
  ghost predicate CarriesNumbers(e: Edit) {
    e.logNumber.Some? && e.prevLogNumber.Some? && e.nextFileNumber.Some? && e.lastSequence.Some?
  }

  /** The version, the compaction pointers and the numbers after some edits to a version. */
  ghost predicate IsAfter(r: Recovered, levels: seq<Level>, pointers: seq<(nat, InternalKey)>, edits: seq<Edit>)
    requires |levels| == V.NUM_LEVELS && edits != [] && CarriesNumbers(edits[|edits| - 1])
  {
    var e := edits[|edits| - 1];
    && r.Recovered? && |r.levels| == V.NUM_LEVELS
    && (forall l :: 0 <= l < V.NUM_LEVELS ==> r.levels[l] == InTurn(levels[l], edits, l))
    && r.compactPointer == PointersAfter(V.Pointed(V.NO_POINTERS, pointers), edits)
    && r.nextFileNumber == e.nextFileNumber.value && r.lastSequence == e.lastSequence.value
    && r.logNumber == e.logNumber.value && r.prevLogNumber == e.prevLogNumber.value
  }

  /** What a manifest promises: its edits add only files their level does not hold, and a number determines a file. */
  ghost predicate ManifestOk(levels: seq<Level>, snapshot: Edit, edits: seq<Edit>) {
    && |levels| == V.NUM_LEVELS && (forall e :: e in edits ==> CarriesNumbers(e))
    && forall l :: 0 <= l < V.NUM_LEVELS ==> LevelOkFor(levels[l], snapshot, edits, l)
  }

  ghost predicate LevelOkFor(files: Level, snapshot: Edit, edits: seq<Edit>, l: nat) {
    V.StrictlyOrdered(files) && Named(Added([snapshot] + edits, l)) && AllAddOnlyNew(files, edits, l)
  }

  lemma FewerEditsOk(files: Level, snapshot: Edit, edits: seq<Edit>, l: nat, k: nat)
    requires LevelOkFor(files, snapshot, edits, l) && k <= |edits|
    ensures LevelOkFor(files, snapshot, edits[..k], l)
  {
    hide InTurn, AddsOnlyNew;
    var all := [snapshot] + edits;
    assert all[..k + 1] == [snapshot] + edits[..k];
    AddedPrefix(all, k + 1, l);
    NamedPart(Added(all[..k + 1], l), Added(all, l));
    forall i | 0 <= i < k
      ensures AddsOnlyNew(InTurn(files, edits[..k][..i], l), edits[..k][i], l)
    {
      assert edits[..k][..i] == edits[..i];
    }
  }

  /** Recovering a snapshot and some edits, decoded. */
  lemma RecoversEdits(levels: seq<Level>, comparator: Bytes, pointers: seq<(nat, InternalKey)>, edits: seq<Edit>,
                      r: Recovered)
    requires ManifestOk(levels, Snapshot(levels, comparator, pointers), edits) && edits != []
    requires RecoveredFrom(r, [Snapshot(levels, comparator, pointers)] + edits)
    ensures IsAfter(r, levels, pointers, edits)
  {
    PointersStart(Snapshot(levels, comparator, pointers), edits);
    hide InTurn, OneBuilder, LevelOkFor, PointersAfter;
    var all := [Snapshot(levels, comparator, pointers)] + edits;
    assert all[|all| - 1] == edits[|edits| - 1] && edits[|edits| - 1] in edits;
    forall l | 0 <= l < V.NUM_LEVELS
      ensures OneBuilder(all, l) == InTurn(levels[l], edits, l)
    {
      LevelRecovers(levels, comparator, pointers, edits, l);
    }
  }

  lemma {:induction false} PointersStart(first: Edit, edits: seq<Edit>)
    ensures PointersAfter(V.NO_POINTERS, [first] + edits) == PointersAfter(V.Pointed(V.NO_POINTERS, first.compactPointers), edits)
  {
    var all := [first] + edits;
    if edits == [] {
      assert all[..0] == [];
    } else {
      assert all[..|all| - 1] == [first] + edits[..|edits| - 1];
      PointersStart(first, edits[..|edits| - 1]);
    }
  }

  lemma LevelRecovers(levels: seq<Level>, comparator: Bytes, pointers: seq<(nat, InternalKey)>, edits: seq<Edit>, l: nat)
    requires l < |levels| && LevelOkFor(levels[l], Snapshot(levels, comparator, pointers), edits, l)
    ensures OneBuilder([Snapshot(levels, comparator, pointers)] + edits, l) == InTurn(levels[l], edits, l)
  {
    ManifestReplays(levels, comparator, pointers, edits, l);
  }

  lemma {:induction false} LogGrows(records: seq<Bytes>, a: nat, b: nat)
    requires a <= b <= |records|
    ensures |Log(0, records[..a])| <= |Log(0, records[..b])|
    decreases b
  {
    hide Log;
    if a < b {
      LogGrows(records, a, b - 1);
      LogExtends(0, records[..b - 1], records[b - 1]);
      assert records[..b] == records[..b - 1] + [records[b - 1]];
    }
  }

  /**
   * A manifest cut short by a crash, but not before its first edit is complete: recovery yields the version and the
   * numbers as they were after the last edit that was completely written.
   */
  lemma ManifestSurvives(levels: seq<Level>, comparator: Bytes, pointers: seq<(nat, InternalKey)>, edits: seq<Edit>,
                         keys: Places, cut: nat, r: Recovered)
    returns (k: nat)
    requires ManifestOk(levels, Snapshot(levels, comparator, pointers), edits) && edits != []
    requires AllStorable([Snapshot(levels, comparator, pointers)] + edits, comparator, keys)
    requires var records := Records([Snapshot(levels, comparator, pointers)] + edits, comparator, keys);
             && |Log(0, records[..2])| <= cut <= |Log(0, records)|
             && RecoveredFromBytes(r, Log(0, records)[..cut], comparator, keys)
    ensures 1 <= k <= |edits| && CarriesNumbers(edits[k - 1]) && IsAfter(r, levels, pointers, edits[..k])
    ensures var records := Records([Snapshot(levels, comparator, pointers)] + edits, comparator, keys);
            |Log(0, records[..k + 1])| <= cut && (k < |edits| ==> cut < |Log(0, records[..k + 2])|)
  {
    hide Log, ReadAll, DecodeRecords, RecoveredFrom, LevelOkFor, Snapshot, IsAfter, Storable, EncodeFields, Fields;
    var all := [Snapshot(levels, comparator, pointers)] + edits;
    var records := Records(all, comparator, keys);
    var j := CrashPrefix(records, cut, true);
    if j < 2 { LogGrows(records, j + 1, 2); }
    k := j - 1;
    assert all[..j] == [Snapshot(levels, comparator, pointers)] + edits[..k];
    assert records[..j] == Records(all[..j], comparator, keys);
    RecordsDecode(all[..j], comparator, keys);
    forall l | 0 <= l < V.NUM_LEVELS
      ensures LevelOkFor(levels[l], Snapshot(levels, comparator, pointers), edits[..k], l)
    {
      FewerEditsOk(levels[l], Snapshot(levels, comparator, pointers), edits, l, k);
    }
    assert edits[k - 1] in edits;
    RecoversEdits(levels, comparator, pointers, edits[..k], r);
  }
}
