/** What readers see over whole runs of the database. */
module DatabaseReads {
  import opened Wrappers
  import opened InternalKeys
  import opened Lookup
  import opened CompactionReads
  import opened Database
  import opened DatabaseInvariant

  ghost predicate IsRun(db: Db, steps: seq<Step>)
    decreases |steps|
  {
    steps != [] ==> Allowed(db, steps[0]) && IsRun(Apply(db, steps[0]), steps[1..])
  }

  ghost function EndOf(db: Db, steps: seq<Step>): Db
    requires IsRun(db, steps)
    decreases |steps|
  {
    if steps == [] then db else EndOf(Apply(db, steps[0]), steps[1..])
  }

  lemma NewIsInOrder(db: Db)
    requires IsNew(db)
    ensures db.Inv() && db.Contents() == {}
  {
  }

  /** Every reachable state is in order. */
  lemma {:induction false} RunKeepsInv(db: Db, steps: seq<Step>)
    requires db.Inv() && IsRun(db, steps)
    ensures EndOf(db, steps).Inv()
    decreases |steps|
  {
    if steps != [] {
      StepKeepsInv(db, steps[0]);
      RunKeepsInv(Apply(db, steps[0]), steps[1..]);
    }
  }

  lemma ReachableIsInOrder(db: Db, steps: seq<Step>)
    requires IsNew(db) && IsRun(db, steps)
    ensures EndOf(db, steps).Inv()
  {
    NewIsInOrder(db);
    RunKeepsInv(db, steps);
  }

  /** The steps a reader at a past snapshot cannot tell from doing nothing: all but the bad compactions. */
  ghost predicate Harmless(db: Db, step: Step) {
    step.Compact? ==> !Resurrects(MergeOf(db, step))
  }

  /** Entries too new for a snapshot do not change what it reads. */
  lemma TooNewToSee(all: set<Entry>, added: set<Entry>, u: UserKey, s: nat, r: Option<Bytes>)
    requires forall e :: e in added ==> e.key.seqno > s
    requires ReadsAs(all, u, s, r)
    ensures ReadsAs(all + added, u, s, r)
  {
    if !NoneVisible(all, u, s) {
      var e :| IsNewest(all, u, s, e)
               && if r.Some? then e.key.kind == Value && e.value == r.value else e.key.kind == Deletion;
      assert IsNewest(all + added, u, s, e);
    }
  }

  lemma SameContents(db: Db, step: Step)
    requires db.Inv() && Allowed(db, step) && !step.Write? && !step.Compact?
    ensures Apply(db, step).Contents() == db.Contents()
  {
    match step
    case SwitchMemTable =>
    case Flush(level, size) => FlushKeepsInv(db, level, size);
    case TrivialMove(level, f) => MoveKeepsContents(db, level, f);
    case GetSnapshot =>
    case ReleaseSnapshot(i) =>
  }

  /** Flushes, moves and writes keep every read of the present and the past; a compaction keeps those from the
      oldest snapshot on if and only if it does not resurrect a key. */
  lemma StepKeepsReads(db: Db, step: Step, u: UserKey, s: nat, r: Option<Bytes>)
    requires db.Inv() && Allowed(db, step) && Harmless(db, step)
    requires s <= db.lastSequence && (step.Compact? ==> s >= db.OldestSnapshot())
    requires ReadsAs(db.Contents(), u, s, r)
    ensures ReadsAs(Apply(db, step).Contents(), u, s, r)
  {
    if step.Write? {
      WriteKeepsInv(db, step.ops);
      OpEntriesBounds(step.ops, db.lastSequence + 1);
      TooNewToSee(db.Contents(), OpEntries(step.ops, db.lastSequence + 1), u, s, r);
    } else if step.Compact? {
      CompactOutputsOk(db, step);
      CompactionPreservesReads(MergeOf(db, step), step.outputs);
    } else {
      SameContents(db, step);
    }
  }

  lemma CompactReadsExactly(db: Db, step: Step)
    requires db.Inv() && step.Compact? && Allowed(db, step)
    ensures ReadsPreserved(db.Contents(), Apply(db, step).Contents(), db.OldestSnapshot())
            <==> !Resurrects(MergeOf(db, step))
  {
    CompactOutputsOk(db, step);
    CompactionPreservesReads(MergeOf(db, step), step.outputs);
  }

  /** The snapshot `s` is held in every state of the run. */
  ghost predicate Holds(db: Db, steps: seq<Step>, s: nat)
    requires IsRun(db, steps)
    decreases |steps|
  {
    s in db.snapshots && (steps != [] ==> Holds(Apply(db, steps[0]), steps[1..], s))
  }

  ghost predicate AllHarmless(db: Db, steps: seq<Step>)
    requires IsRun(db, steps)
    decreases |steps|
  {
    steps != [] ==> Harmless(db, steps[0]) && AllHarmless(Apply(db, steps[0]), steps[1..])
  }

  lemma HeldIsRecent(db: Db, s: nat)
    requires db.Inv() && s in db.snapshots
    ensures db.OldestSnapshot() <= s <= db.lastSequence
  {
    var i :| 0 <= i < |db.snapshots| && db.snapshots[i] == s;
  }

  lemma {:induction false} HeldReadsAreStable(db: Db, steps: seq<Step>, u: UserKey, s: nat, r: Option<Bytes>)
    requires db.Inv() && IsRun(db, steps) && Holds(db, steps, s) && AllHarmless(db, steps)
    requires ReadsAs(db.Contents(), u, s, r)
    ensures ReadsAs(EndOf(db, steps).Contents(), u, s, r)
    decreases |steps|
  {
    if steps != [] {
      HeldIsRecent(db, s);
      StepKeepsReads(db, steps[0], u, s, r);
      StepKeepsInv(db, steps[0]);
      HeldReadsAreStable(Apply(db, steps[0]), steps[1..], u, s, r);
    }
  }

  // Which snapshots are held

  /** Taking a snapshot holds the present once more, releasing one takes just that one away, and nothing else matters. */
  lemma SnapshotsHeld(db: Db, step: Step)
    requires Allowed(db, step)
    ensures step.GetSnapshot? ==>
              multiset(Apply(db, step).snapshots) == multiset(db.snapshots) + multiset{db.lastSequence}
    ensures step.ReleaseSnapshot? ==>
              && step.index < |db.snapshots|
              && multiset(Apply(db, step).snapshots) == multiset(db.snapshots) - multiset{db.snapshots[step.index]}
    ensures !step.GetSnapshot? && !step.ReleaseSnapshot? ==> Apply(db, step).snapshots == db.snapshots
  {
    hide AddSome, Added;
    if step.ReleaseSnapshot? {
      var i := step.index;
      assert db.snapshots == db.snapshots[..i] + [db.snapshots[i]] + db.snapshots[i + 1..];
    }
  }

  /** Where the snapshot at a place of the list is after a step, `None` once it is released. */
  function PlaceAfter(step: Step, at: nat): Option<nat> {
    if !step.ReleaseSnapshot? then Some(at)
    else if step.index == at then None
    else Some(if step.index < at then at - 1 else at)
  }

  /** No step of the run releases the snapshot that is now at that place. */
  predicate NotReleased(steps: seq<Step>, at: nat) {
    steps != [] ==> PlaceAfter(steps[0], at).Some? && NotReleased(steps[1..], PlaceAfter(steps[0], at).value)
  }

  lemma StaysAtPlace(db: Db, step: Step, at: nat)
    requires Allowed(db, step) && at < |db.snapshots| && PlaceAfter(step, at).Some?
    ensures var now := PlaceAfter(step, at).value;
            now < |Apply(db, step).snapshots| && Apply(db, step).snapshots[now] == db.snapshots[at]
  {
    hide AddSome, Added;
  }

  lemma {:induction false} HeldUntilReleased(db: Db, steps: seq<Step>, at: nat)
    requires IsRun(db, steps) && at < |db.snapshots| && NotReleased(steps, at)
    ensures Holds(db, steps, db.snapshots[at])
    decreases |steps|
  {
    hide Allowed, Apply;
    if steps != [] {
      StaysAtPlace(db, steps[0], at);
      HeldUntilReleased(Apply(db, steps[0]), steps[1..], PlaceAfter(steps[0], at).value);
    }
  }

  lemma TakenIsLast(db: Db)
    ensures Apply(db, GetSnapshot).snapshots == db.snapshots + [db.lastSequence]
    ensures Apply(db, GetSnapshot).Contents() == db.Contents()
  {
  }

  /** A snapshot is held from the call that takes it to the one that releases it, however many others there are. */
  lemma TakenIsHeld(db: Db, steps: seq<Step>)
    requires IsRun(db, [GetSnapshot] + steps) && NotReleased(steps, |db.snapshots|)
    ensures var after := Apply(db, GetSnapshot); IsRun(after, steps) && Holds(after, steps, db.lastSequence)
  {
    assert ([GetSnapshot] + steps)[1..] == steps;
    TakenIsLast(db);
    HeldUntilReleased(Apply(db, GetSnapshot), steps, |db.snapshots|);
  }

  /**
   * What is read at a snapshot is, from the call that takes it to the one that releases it, what was read at the present
   * when it was taken, whatever other steps there are.
   */
  lemma SnapshotReadsAreStable(db: Db, steps: seq<Step>, u: UserKey, r: Option<Bytes>)
    requires db.Inv() && IsRun(db, [GetSnapshot] + steps) && AllHarmless(db, [GetSnapshot] + steps)
    requires NotReleased(steps, |db.snapshots|) && ReadsAs(db.Contents(), u, db.lastSequence, r)
    ensures ReadsAs(EndOf(db, [GetSnapshot] + steps).Contents(), u, db.lastSequence, r)
  {
    hide Db.Inv, Apply, Allowed, Db.Contents, ReadsAs;
    assert ([GetSnapshot] + steps)[1..] == steps;
    TakenIsLast(db);
    TakenIsHeld(db, steps);
    StepKeepsInv(db, GetSnapshot);
    HeldReadsAreStable(Apply(db, GetSnapshot), steps, u, db.lastSequence, r);
  }

  /** The last operation of a batch on a user key. */
  ghost predicate IsLastOp(ops: seq<Op>, i: nat, u: UserKey) {
    i < |ops| && ops[i].user == u && forall j :: i < j < |ops| ==> ops[j].user != u
  }

  lemma LastOpIsNewest(all: set<Entry>, ops: seq<Op>, first: nat, i: nat)
    requires i < |ops| && IsLastOp(ops, i, ops[i].user) && forall e :: e in all ==> e.key.seqno < first
    ensures IsNewest(all + OpEntries(ops, first), ops[i].user, first + |ops| - 1, EntryOf(ops[i], first + i))
  {
    OpEntriesAre(ops, first);
    forall x | x in OpEntries(ops, first) && x.key.user == ops[i].user
      ensures x.key.seqno <= first + i
    {
      var j :| 0 <= j < |ops| && x == EntryOf(ops[j], first + j);
    }
  }

  lemma WriteContents(db: Db, ops: seq<Op>)
    requires db.Inv() && Allowed(db, Write(ops))
    ensures Apply(db, Write(ops)).Contents() == db.Contents() + OpEntries(ops, db.lastSequence + 1)
    ensures Apply(db, Write(ops)).lastSequence == db.lastSequence + |ops|
  {
    WriteKeepsInv(db, ops);
  }

  /** A reader of the present sees the last operation of the batch on its key ... */
  lemma WriteIsVisible(db: Db, ops: seq<Op>, i: nat)
    requires db.Inv() && Allowed(db, Write(ops)) && i < |ops| && IsLastOp(ops, i, ops[i].user)
    ensures var after := Apply(db, Write(ops));
            ReadsAs(after.Contents(), ops[i].user, after.lastSequence,
                    if ops[i].kind == Value then Some(ops[i].value) else None)
  {
    hide Db.Inv, Db.Contents, IsLastOp, IsNewest;
    WriteContents(db, ops);
    SequencesBounded(db);
    LastOpIsNewest(db.Contents(), ops, db.lastSequence + 1, i);
    NewestReads(Apply(db, Write(ops)).Contents(), ops[i].user, db.lastSequence + |ops|,
                EntryOf(ops[i], db.lastSequence + 1 + i));
  }

  lemma NewestReads(all: set<Entry>, u: UserKey, s: nat, e: Entry)
    requires IsNewest(all, u, s, e)
    ensures ReadsAs(all, u, s, if e.key.kind == Value then Some(e.value) else None)
  {
  }

  lemma OtherKeysUnchanged(all: set<Entry>, added: set<Entry>, u: UserKey, s: nat, t: nat, r: Option<Bytes>)
    requires forall e :: e in added ==> e.key.user != u
    requires s <= t && forall e :: e in all ==> e.key.seqno <= s
    requires ReadsAs(all, u, s, r)
    ensures ReadsAs(all + added, u, t, r)
  {
    if !NoneVisible(all, u, s) {
      var e :| IsNewest(all, u, s, e)
               && if r.Some? then e.key.kind == Value && e.value == r.value else e.key.kind == Deletion;
      assert IsNewest(all + added, u, t, e);
    }
  }

  /** ... and what it saw before if the batch leaves the key alone. */
  lemma WriteLeavesOthers(db: Db, ops: seq<Op>, u: UserKey, r: Option<Bytes>)
    requires db.Inv() && Allowed(db, Write(ops)) && forall i :: 0 <= i < |ops| ==> ops[i].user != u
    requires ReadsAs(db.Contents(), u, db.lastSequence, r)
    ensures ReadsAs(Apply(db, Write(ops)).Contents(), u, Apply(db, Write(ops)).lastSequence, r)
  {
    hide Db.Inv, Db.Contents, ReadsAs;
    WriteContents(db, ops);
    SequencesBounded(db);
    OtherKeys(ops, db.lastSequence + 1, u);
    OtherKeysUnchanged(db.Contents(), OpEntries(ops, db.lastSequence + 1), u, db.lastSequence,
                       db.lastSequence + |ops|, r);
  }

  lemma OtherKeys(ops: seq<Op>, first: nat, u: UserKey)
    requires forall i :: 0 <= i < |ops| ==> ops[i].user != u
    ensures forall x :: x in OpEntries(ops, first) ==> x.key.user != u
  {
    OpEntriesAre(ops, first);
    forall x | x in OpEntries(ops, first)
      ensures x.key.user != u
    {
      var j :| 0 <= j < |ops| && x == EntryOf(ops[j], first + j);
    }
  }
}
