/**
 * Group commit (db/db_impl.cc, DBImpl::Write and BuildBatchGroup): writers queue up, and the one at the front logs and
 * applies its batch together with those of some writers behind it. A state machine over the stretches of code that hold
 * the mutex, in which every writer has a control state of its own and its steps may come between those of any others:
 * its runs are all interleavings of writers and readers. That one writer works at a time is not part of the steps; it
 * follows from the loop in which writers wait.
 */
module GroupCommit {
  import opened Wrappers
  import opened Database

  /** The caller's batch, none to force a compaction, and whether it asked for the log to be synced. */
  datatype Writer = Writer(id: nat, batch: Option<Batch>, sync: bool)

  datatype Batch = Batch(ops: seq<Op>, byteSize: nat)

  datatype Numbered = Numbered(seqno: nat, op: Op)

  /** What became of a group: `inserted` of its operations reached the memtable. */
  datatype Group = Group(members: seq<Writer>, first: nat, ops: seq<Op>, logged: bool, synced: bool, inserted: nat, ok: bool)

  datatype Stage = ToLog | ToSync | ToInsert | Over

  /** Where a writer is in DBImpl::Write. */
  datatype Control =
    | Waiting(asleep: bool)                 // about to test the loop's condition, or asleep in the loop
    | MakingRoom
    | Working(group: Group, stage: Stage)   // logging and inserting, without the mutex
    | Returned(ok: bool)

  datatype System = System(
    queue: seq<Writer>,            // writers_
    control: map<Writer, Control>,
    done: map<Writer, bool>,       // the writers that others have marked as done, with the status they set
    lastSequence: nat,
    log: seq<(nat, seq<Op>)>,      // the first sequence number and the operations of each record
    syncedRecords: nat,            // how many records of the log are known to be on disk
    mem: seq<Numbered>,            // in the order of insertion
    groups: seq<Group>,            // the finished groups
    completed: seq<(Writer, bool)>,  // the writers taken off the queue, with their statuses
    returned: seq<(Writer, bool)>,   // the writers that have returned, and with what
    arrivals: seq<Writer>,         // all writers, in the order they queued up
    backgroundError: bool)
  {
    /** What the writer at the front is doing. */
    function Front(): Control {
      if queue != [] && queue[0] in control then control[queue[0]] else Waiting(false)
    }
  }

  // Groups

  const MAX_GROUP: nat := 0x10_0000
  const SMALL_WRITE: nat := 0x2_0000

  function MaxSize(first: Writer): nat
    requires first.batch.Some?
  {
    if first.batch.value.byteSize <= SMALL_WRITE then first.batch.value.byteSize + SMALL_WRITE else MAX_GROUP
  }

  function ByteSize(w: Writer): nat { if w.batch.Some? then w.batch.value.byteSize else 0 }

  function TotalSize(writers: seq<Writer>): nat {
    if writers == [] then 0 else TotalSize(writers[..|writers| - 1]) + ByteSize(writers[|writers| - 1])
  }

  /** Whether the writer at `i` may join the group of the writers before it. */
  predicate MayJoin(queue: seq<Writer>, i: nat)
    requires 0 < i < |queue| && queue[0].batch.Some?
  {
    && (queue[i].sync ==> queue[0].sync)
    && (queue[i].batch.Some? ==> TotalSize(queue[..i + 1]) <= MaxSize(queue[0]))
  }

  /** The first `n` writers are a group: all may join, and the next may not. */
  ghost predicate IsGroup(queue: seq<Writer>, n: nat) {
    && 0 < n <= |queue| && queue[0].batch.Some?
    && (forall i :: 0 < i < n ==> MayJoin(queue, i))
    && (n < |queue| ==> !MayJoin(queue, n))
  }

  function OpsOf(w: Writer): seq<Op> { if w.batch.Some? then w.batch.value.ops else [] }

  /** The operations of the group's batches, one batch after the other. */
  function Joined(writers: seq<Writer>): seq<Op> {
    if writers == [] then [] else Joined(writers[..|writers| - 1]) + OpsOf(writers[|writers| - 1])
  }

  method BuildBatchGroup(queue: seq<Writer>) returns (n: nat, ops: seq<Op>)
    requires queue != [] && queue[0].batch.Some?
    ensures IsGroup(queue, n) && ops == Joined(queue[..n])
  {
    var first := queue[0];
    var size := ByteSize(first);
    var maxSize := MaxSize(first);
    ops := first.batch.value.ops;
    assert queue[..1] == [first] && [first][..0] == [];
    n := 1;
    while n < |queue|
      invariant 1 <= n <= |queue| && size == TotalSize(queue[..n]) && ops == Joined(queue[..n])
      invariant forall i :: 0 < i < n ==> MayJoin(queue, i)
    {
      var w := queue[n];
      assert queue[..n + 1][..n] == queue[..n];
      if w.sync && !first.sync {
        break;
      }
      if w.batch.Some? {
        if size + w.batch.value.byteSize > maxSize {
          break;
        }
        size := size + w.batch.value.byteSize;
        ops := ops + w.batch.value.ops;
      }
      n := n + 1;
    }
  }

  /**
   * No writers that follow make a group exceed a megabyte, and a small write waits for no more than 128 kilobytes of
   * others; the next writer is left out just because it would, or because it asks for a sync the first one does not.
   */
  lemma GroupIsBounded(queue: seq<Writer>, n: nat)
    requires IsGroup(queue, n)
    ensures var first, total := ByteSize(queue[0]), TotalSize(queue[..n]);
            && first <= total && (total > first ==> total <= 0x10_0000)
            && (first <= 0x2_0000 ==> total <= first + 0x2_0000)
            && (forall i :: 0 <= i < n && queue[i].sync ==> queue[0].sync)
            && (n < |queue| && (queue[0].sync || !queue[n].sync) ==>
                  total + ByteSize(queue[n]) > if first <= 0x2_0000 then first + 0x2_0000 else 0x10_0000)
  {
    GroupSize(queue, n);
    forall i | 0 <= i < n && queue[i].sync
      ensures queue[0].sync
    {
      if i > 0 { assert MayJoin(queue, i); }
    }
    if n < |queue| { assert queue[..n + 1][..n] == queue[..n]; }
  }

  lemma {:induction false} GroupSize(queue: seq<Writer>, n: nat)
    requires 0 < n <= |queue| && queue[0].batch.Some? && forall i :: 0 < i < n ==> MayJoin(queue, i)
    ensures var first, total := ByteSize(queue[0]), TotalSize(queue[..n]);
            first <= total && (total > first ==> total <= MaxSize(queue[0]))
  {
    assert queue[..n][..n - 1] == queue[..n - 1];
    if n > 1 {
      GroupSize(queue, n - 1);
      assert MayJoin(queue, n - 1);
    } else {
      assert TotalSize(queue[..0]) == 0;
    }
  }

  // Steps

  datatype Step =
    | Enqueue(w: Writer)
    | Wait(w: Writer)
    | WakeUp(w: Writer)           // without a signal
    | Return(w: Writer)           // finds that it is done
    | Lead(w: Writer)             // finds that it is at the front
    | Leave(w: Writer, ok: bool)  // after an error, or with nothing to write
    | BackgroundFails             // an error in a flush or a compaction
    | StartGroup(w: Writer, n: nat)
    | AddRecord(w: Writer, ok: bool)
    | SyncLog(w: Writer, ok: bool)
    | InsertOne(w: Writer)
    | InsertFails(w: Writer)
    | Finish(w: Writer)

  predicate IsAwake(s: System, w: Writer) { w in s.control && s.control[w] == Waiting(false) }

  predicate IsFront(s: System, w: Writer) { s.queue != [] && s.queue[0] == w }

  predicate IsAt(s: System, w: Writer, stage: Stage) {
    w in s.control && s.control[w].Working? && s.control[w].stage == stage
  }

  /** A writer goes on waiting while it is neither done nor at the front. */
  ghost predicate Allowed(s: System, step: Step) {
    match step
    case Enqueue(w) => w !in s.control
    case Wait(w) => IsAwake(s, w) && w !in s.done && !IsFront(s, w)
    case WakeUp(w) => w in s.control && s.control[w] == Waiting(true)
    case Return(w) => IsAwake(s, w) && w in s.done
    case Lead(w) => IsAwake(s, w) && w !in s.done && IsFront(s, w)
    case Leave(w, ok) =>
      w in s.control && s.control[w].MakingRoom? && (ok ==> w.batch.None? && !s.backgroundError)
    case BackgroundFails => true
    case StartGroup(w, n) =>
      w in s.control && s.control[w].MakingRoom? && !s.backgroundError && w.batch.Some? && IsGroup(s.queue, n)
    case AddRecord(w, _) => IsAt(s, w, ToLog)
    case SyncLog(w, _) => IsAt(s, w, ToSync)
    case InsertOne(w) => IsAt(s, w, ToInsert) && s.control[w].group.inserted < |s.control[w].group.ops|
    case InsertFails(w) => IsAt(s, w, ToInsert)
    case Finish(w) =>
      && (IsAt(s, w, Over) || (IsAt(s, w, ToInsert) && s.control[w].group.inserted == |s.control[w].group.ops|))
      && s.control[w].group.members != [] && s.control[w].group.first > 0
  }

  function NumberFrom(first: nat, ops: seq<Op>): (r: seq<Numbered>)
    ensures |r| == |ops|
  {
    seq(|ops|, i requires 0 <= i < |ops| => Numbered(first + i, ops[i]))
  }

  function Results(writers: seq<Writer>, ok: bool): (r: seq<(Writer, bool)>)
    ensures |r| == |writers|
  {
    seq(|writers|, i requires 0 <= i < |writers| => (writers[i], ok))
  }

  /** How many writers are taken off the queue, from the front up to and including `last`. */
  function UpTo(queue: seq<Writer>, last: Writer): (n: nat)
    ensures n <= |queue|
  {
    if queue == [] then 0 else if queue[0] == last then 1 else 1 + UpTo(queue[1..], last)
  }

  function Signal(c: Control): Control { if c.Waiting? then Waiting(false) else c }

  /** `w` takes the writers up to `last` off the queue, marks the others as done, signals them and the new front. */
  function Complete(s: System, w: Writer, last: Writer, ok: bool): System {
    var n := UpTo(s.queue, last);
    var popped, rest := s.queue[..n], s.queue[n..];
    s.(queue := rest, completed := s.completed + Results(popped, ok), returned := s.returned + [(w, ok)],
       done := map v | v in s.done.Keys + (set u | u in popped) - {w} :: if v in popped then ok else s.done[v],
       control := map v | v in s.control ::
         if v == w then Returned(ok)
         else if v in popped || (rest != [] && v == rest[0]) then Signal(s.control[v])
         else s.control[v])
  }

  function AtWork(s: System, w: Writer, g: Group, stage: Stage): System {
    s.(control := s.control[w := Working(g, stage)])
  }

  ghost function Apply(s: System, step: Step): System
    requires Allowed(s, step)
  {
    match step
    case Enqueue(w) =>
      s.(queue := s.queue + [w], arrivals := s.arrivals + [w], control := s.control[w := Waiting(false)])
    case Wait(w) => s.(control := s.control[w := Waiting(true)])
    case WakeUp(w) => s.(control := s.control[w := Waiting(false)])
    case Return(w) =>
      s.(control := s.control[w := Returned(s.done[w])], returned := s.returned + [(w, s.done[w])])
    case Lead(w) => s.(control := s.control[w := MakingRoom])
    case Leave(w, ok) => Complete(s, w, w, ok)
    case BackgroundFails => s.(backgroundError := true)
    case StartGroup(w, n) =>
      var members := s.queue[..n];
      AtWork(s, w, Group(members, s.lastSequence + 1, Joined(members), false, false, 0, true), ToLog)
    case AddRecord(w, ok) =>
      var g := s.control[w].group;
      if ok then
        AtWork(s, w, g.(logged := true), if w.sync then ToSync else ToInsert).(log := s.log + [(g.first, g.ops)])
      else AtWork(s, w, g.(ok := false), Over)
    case SyncLog(w, ok) =>
      var g := s.control[w].group;
      if ok then AtWork(s, w, g.(synced := true), ToInsert).(syncedRecords := |s.log|)
      else AtWork(s, w, g.(ok := false), Over).(backgroundError := true)
    case InsertOne(w) =>
      var g := s.control[w].group;
      AtWork(s, w, g.(inserted := g.inserted + 1), ToInsert)
        .(mem := s.mem + [Numbered(g.first + g.inserted, g.ops[g.inserted])])
    case InsertFails(w) => AtWork(s, w, s.control[w].group.(ok := false), Over)
    case Finish(w) =>
      var g := s.control[w].group;
      Complete(s, w, g.members[|g.members| - 1], g.ok)
        .(lastSequence := g.first + |g.ops| - 1, groups := s.groups + [g])
  }

  // The invariant

  /** What the groups have put into the memtable. */
  function MemOf(groups: seq<Group>): seq<Numbered> {
    if groups == [] then []
    else
      var g := groups[|groups| - 1];
      MemOf(groups[..|groups| - 1]) + NumberFrom(g.first, if g.inserted <= |g.ops| then g.ops[..g.inserted] else g.ops)
  }

  function LogPart(g: Group): seq<(nat, seq<Op>)> { if g.logged then [(g.first, g.ops)] else [] }

  function LogOf(groups: seq<Group>): seq<(nat, seq<Op>)> {
    if groups == [] then []
    else
      var g := groups[|groups| - 1];
      LogOf(groups[..|groups| - 1]) + LogPart(g)
  }

  ghost predicate GroupOk(g: Group) {
    && g.members != [] && g.ops == Joined(g.members) && g.inserted <= |g.ops|
    && (forall w :: w in g.members && w.sync ==> g.members[0].sync)
    && (g.synced ==> g.logged) && (g.inserted > 0 ==> g.logged)
  }

  /** A finished group that succeeded is logged, on disk if its leader wanted that, and all in the memtable. */
  ghost predicate Settled(g: Group) {
    g.ok ==> g.logged && g.inserted == |g.ops| && (g.members != [] && g.members[0].sync ==> g.synced)
  }

  /** The groups take up consecutive ranges of sequence numbers. */
  ghost predicate Consecutive(groups: seq<Group>, last: nat) {
    if groups == [] then last == 0
    else
      var g := groups[|groups| - 1];
      g.first > 0 && last == g.first + |g.ops| - 1 && Consecutive(groups[..|groups| - 1], g.first - 1)
  }

  /** The records of synced groups are on disk. */
  ghost predicate Durable(groups: seq<Group>, onDisk: nat) {
    forall i :: 0 <= i < |groups| && groups[i].synced ==> |LogOf(groups[..i + 1])| <= onDisk
  }

  /** A writer has the status of its group; without a group it succeeds only if it had nothing to write. */
  ghost predicate Accounted(groups: seq<Group>, completed: seq<(Writer, bool)>) {
    && (forall r :: r in completed ==>
          (exists g :: g in groups && g.ok == r.1 && r.0 in g.members) || (r.1 ==> r.0.batch.None?))
    && forall g, w :: g in groups && w in g.members ==> (w, g.ok) in completed
  }

  ghost predicate CurrentOk(s: System) {
    s.Front().Working? ==>
      var g, stage := s.Front().group, s.Front().stage;
      && GroupOk(g) && |g.members| <= |s.queue| && g.members == s.queue[..|g.members|] && g.first == s.lastSequence + 1
      && (stage == ToLog ==> !g.logged && g.inserted == 0 && g.ok)
      && (stage == ToSync ==> g.logged && g.inserted == 0 && g.ok && g.members[0].sync)
      && (stage == ToInsert ==> g.logged && g.ok && (g.members[0].sync ==> g.synced))
      && (stage == Over ==> !g.ok)
  }

  function Current(s: System): seq<Group> {
    if s.Front().Working? then [s.Front().group] else []
  }

  function Writers(completed: seq<(Writer, bool)>): (r: seq<Writer>)
    ensures |r| == |completed|
  {
    seq(|completed|, i requires 0 <= i < |completed| => completed[i].0)
  }

  /** Groups, log, memtable and statuses agree. */
  ghost predicate WorkOk(s: System) {
    && CurrentOk(s)
    && (forall g :: g in s.groups ==> GroupOk(g) && Settled(g))
    && Consecutive(s.groups, s.lastSequence)
    && s.mem == MemOf(s.groups + Current(s)) && s.log == LogOf(s.groups + Current(s))
    && Durable(s.groups + Current(s), s.syncedRecords) && s.syncedRecords <= |s.log|
    && Accounted(s.groups, s.completed)
  }

  predicate Leads(c: Control) { c.MakingRoom? || c.Working? }

  ghost predicate Distinct(writers: seq<Writer>) {
    forall i, j :: 0 <= i < j < |writers| ==> writers[i] != writers[j]
  }

  /** Writers are taken off the queue in the order they came. */
  ghost predicate QueueOk(s: System) {
    && s.arrivals == Writers(s.completed) + s.queue && Distinct(s.arrivals)
    && forall w :: w in s.control <==> w in s.arrivals
  }

  /** Only the writer at the front works, and it does not sleep. */
  ghost predicate ControlOk(s: System) {
    && (forall w :: w in s.queue ==> w in s.control && w !in s.done && !s.control[w].Returned?)
    && (forall w :: w in s.control && Leads(s.control[w]) ==> IsFront(s, w))
    && (s.queue != [] ==> s.control[s.queue[0]] != Waiting(true))
  }

  /** Who is off the queue has returned with its status, or is awake and marked as done with it. */
  ghost predicate DoneOk(s: System) {
    && (forall r :: r in s.completed ==>
          || (r.0 in s.control && s.control[r.0] == Returned(r.1))
          || (IsAwake(s, r.0) && r.0 in s.done && s.done[r.0] == r.1))
    && forall w :: w in s.done ==> (w, s.done[w]) in s.completed
  }

  ghost predicate ReturnedOk(s: System) {
    && (forall r :: r in s.returned ==> r in s.completed && r.0 in s.control && s.control[r.0] == Returned(r.1))
    && (forall w :: w in s.control && s.control[w].Returned? ==> (w, s.control[w].ok) in s.returned)
    && forall i, j :: 0 <= i < j < |s.returned| ==> s.returned[i].0 != s.returned[j].0
  }

  ghost predicate WritersOk(s: System) { QueueOk(s) && ControlOk(s) && DoneOk(s) && ReturnedOk(s) }

  ghost predicate Inv(s: System) { WritersOk(s) && WorkOk(s) }

  ghost predicate IsNew(s: System) {
    s == System([], map[], map[], 0, [], 0, [], [], [], [], [], false)
  }

  lemma NewIsInOrder(s: System)
    requires IsNew(s)
    ensures Inv(s)
  {
  }

  // Writers

  /** Who is still in the queue is not completed. */
  lemma StillQueued(s: System, w: Writer)
    requires QueueOk(s) && w in s.queue
    ensures w in s.arrivals && forall r :: r in s.completed ==> r.0 != w
  {
    var n := |s.completed|;
    var j :| 0 <= j < |s.queue| && s.queue[j] == w;
    assert s.arrivals[n + j] == w;
    forall r | r in s.completed
      ensures r.0 != w
    {
      var i :| 0 <= i < n && s.completed[i] == r;
      assert s.arrivals[i] == Writers(s.completed)[i] == r.0;
    }
  }

  lemma EnqueueKeepsWriters(s: System, w: Writer)
    requires WritersOk(s) && Allowed(s, Enqueue(w))
    ensures WritersOk(Apply(s, Enqueue(w)))
  {
    hide QueueOk, ControlOk, DoneOk, ReturnedOk;
    EnqueueKeepsQueue(s, w);
    EnqueueKeepsControl(s, w);
    EnqueueKeepsDone(s, w);
  }

  lemma EnqueueKeepsQueue(s: System, w: Writer)
    requires QueueOk(s) && Allowed(s, Enqueue(w))
    ensures QueueOk(Apply(s, Enqueue(w)))
  {
    var t := Apply(s, Enqueue(w));
    assert t.arrivals == Writers(s.completed) + t.queue;
    assert t.arrivals == s.arrivals + [w];
  }

  lemma EnqueueKeepsControl(s: System, w: Writer)
    requires ControlOk(s) && DoneOk(s) && Allowed(s, Enqueue(w))
    ensures ControlOk(Apply(s, Enqueue(w)))
  {
    var t := Apply(s, Enqueue(w));
    forall v | v in s.done ensures v in s.control { assert (v, s.done[v]) in s.completed; }
    forall v | v in t.queue
      ensures v in t.control && v !in t.done && !t.control[v].Returned?
    {
      assert v in s.queue || v == w;
    }
  }

  lemma EnqueueKeepsDone(s: System, w: Writer)
    requires DoneOk(s) && ReturnedOk(s) && Allowed(s, Enqueue(w))
    ensures DoneOk(Apply(s, Enqueue(w))) && ReturnedOk(Apply(s, Enqueue(w)))
  {
  }

  /** Only the control state of `w`, which has not returned, differs. */
  ghost predicate OnlyMoves(s: System, t: System, w: Writer, c: Control) {
    && w in s.control && t.control == s.control[w := c] && !s.control[w].Returned? && !c.Returned?
    && t.queue == s.queue && t.arrivals == s.arrivals && t.done == s.done && t.completed == s.completed
    && t.returned == s.returned
  }

  /** A writer goes to sleep, wakes up, or does a step of its work. */
  lemma OneMovesOn(s: System, t: System, w: Writer, c: Control)
    requires WritersOk(s) && OnlyMoves(s, t, w, c)
    requires Leads(c) ==> IsFront(s, w)
    requires c == Waiting(true) ==> w !in s.done && !IsFront(s, w)
    requires c.Waiting? || w !in s.done
    ensures WritersOk(t)
  {
    hide QueueOk, ControlOk, DoneOk, ReturnedOk;
    QueueStays(s, t, w, c);
    ControlStays(s, t, w, c);
    DoneStays(s, t, w, c);
    ReturnedStays(s, t, w, c);
  }

  lemma QueueStays(s: System, t: System, w: Writer, c: Control)
    requires QueueOk(s) && OnlyMoves(s, t, w, c)
    ensures QueueOk(t)
  {
    hide Distinct;
  }

  lemma ControlStays(s: System, t: System, w: Writer, c: Control)
    requires ControlOk(s) && OnlyMoves(s, t, w, c) && (Leads(c) ==> IsFront(s, w))
    requires c == Waiting(true) ==> !IsFront(s, w)
    ensures ControlOk(t)
  {
  }

  lemma DoneStays(s: System, t: System, w: Writer, c: Control)
    requires DoneOk(s) && OnlyMoves(s, t, w, c) && (c == Waiting(true) ==> w !in s.done) && (c.Waiting? || w !in s.done)
    ensures DoneOk(t)
  {
  }

  lemma ReturnedStays(s: System, t: System, w: Writer, c: Control)
    requires ReturnedOk(s) && OnlyMoves(s, t, w, c)
    ensures ReturnedOk(t)
  {
  }

  lemma ReturnKeepsWriters(s: System, w: Writer)
    requires WritersOk(s) && Allowed(s, Return(w))
    ensures WritersOk(Apply(s, Return(w)))
  {
    hide QueueOk, ControlOk, DoneOk, ReturnedOk;
    ReturnKeepsQueue(s, w);
    ReturnKeepsDone(s, w);
    ReturnKeepsReturned(s, w);
  }

  lemma ReturnKeepsQueue(s: System, w: Writer)
    requires QueueOk(s) && ControlOk(s) && Allowed(s, Return(w))
    ensures QueueOk(Apply(s, Return(w))) && ControlOk(Apply(s, Return(w)))
  {
    hide Distinct;
    assert w !in s.queue;
  }

  lemma ReturnKeepsDone(s: System, w: Writer)
    requires DoneOk(s) && Allowed(s, Return(w))
    ensures DoneOk(Apply(s, Return(w)))
  {
  }

  lemma ReturnKeepsReturned(s: System, w: Writer)
    requires DoneOk(s) && ReturnedOk(s) && Allowed(s, Return(w))
    ensures ReturnedOk(Apply(s, Return(w)))
  {
    hide DoneOk;
    NotReturned(s, w);
    assert (w, s.done[w]) in s.completed by { DoneIsCompleted(s, w); }
  }

  lemma DoneIsCompleted(s: System, w: Writer)
    requires DoneOk(s) && w in s.done
    ensures (w, s.done[w]) in s.completed
  {
  }

  lemma NotReturned(s: System, w: Writer)
    requires ReturnedOk(s) && w in s.control && !s.control[w].Returned?
    ensures forall r :: r in s.returned ==> r.0 != w
  {
  }

  lemma {:induction false} UpToLast(queue: seq<Writer>, n: nat)
    requires 0 < n <= |queue| && Distinct(queue)
    ensures UpTo(queue, queue[n - 1]) == n
  {
    if n > 1 {
      assert queue[1..][n - 2] == queue[n - 1];
      UpToLast(queue[1..], n - 1);
    }
  }

  lemma QueueIsDistinct(s: System)
    requires QueueOk(s)
    ensures Distinct(s.queue)
  {
    forall i, j | 0 <= i < j < |s.queue|
      ensures s.queue[i] != s.queue[j]
    {
      assert s.arrivals[|s.completed| + i] == s.queue[i] && s.arrivals[|s.completed| + j] == s.queue[j];
    }
  }

  lemma CompletionKeepsWriters(s: System, w: Writer, n: nat, ok: bool)
    requires WritersOk(s) && w in s.control && Leads(s.control[w]) && 0 < n <= |s.queue|
    ensures UpTo(s.queue, s.queue[n - 1]) == n
    ensures WritersOk(Complete(s, w, s.queue[n - 1], ok))
  {
    QueueIsDistinct(s);
    UpToLast(s.queue, n);
    var t := Complete(s, w, s.queue[n - 1], ok);
    CompletionKeepsQueue(s, w, n, ok);
    CompletionKeepsControl(s, w, n, ok);
    CompletionKeepsDone(s, w, n, ok);
    CompletionKeepsReturned(s, w, n, ok);
  }

  lemma CompletionKeepsQueue(s: System, w: Writer, n: nat, ok: bool)
    requires WritersOk(s) && 0 < n <= |s.queue| && UpTo(s.queue, s.queue[n - 1]) == n
    ensures QueueOk(Complete(s, w, s.queue[n - 1], ok))
  {
    hide UpTo, ControlOk, DoneOk, ReturnedOk;
    var t := Complete(s, w, s.queue[n - 1], ok);
    assert Writers(t.completed) == Writers(s.completed) + s.queue[..n];
    assert s.queue == s.queue[..n] + s.queue[n..];
  }

  lemma CompletionKeepsControl(s: System, w: Writer, n: nat, ok: bool)
    requires ControlOk(s) && w in s.control && Leads(s.control[w])
    requires 0 < n <= |s.queue| && UpTo(s.queue, s.queue[n - 1]) == n && Distinct(s.queue)
    ensures ControlOk(Complete(s, w, s.queue[n - 1], ok))
  {
    hide UpTo;
    var t := Complete(s, w, s.queue[n - 1], ok);
    forall v | v in t.queue
      ensures v in t.control && v !in t.done && !t.control[v].Returned?
    {
      BehindIsWaiting(s, w, n, v);
    }
    forall v | v in t.control
      ensures !Leads(t.control[v])
    {
    }
    if t.queue != [] { BehindIsWaiting(s, w, n, t.queue[0]); }
  }

  lemma BehindIsWaiting(s: System, w: Writer, n: nat, v: Writer)
    requires ControlOk(s) && w in s.control && Leads(s.control[w]) && 0 < n <= |s.queue| && Distinct(s.queue)
    requires v in s.queue[n..]
    ensures v !in s.queue[..n] && v != w && v in s.control && v !in s.done && s.control[v].Waiting?
  {
    var i :| n <= i < |s.queue| && s.queue[i] == v;
    assert v in s.queue && !IsFront(s, v);
  }

  lemma CompletionKeepsDone(s: System, w: Writer, n: nat, ok: bool)
    requires WritersOk(s) && w in s.control && Leads(s.control[w])
    requires 0 < n <= |s.queue| && UpTo(s.queue, s.queue[n - 1]) == n
    ensures DoneOk(Complete(s, w, s.queue[n - 1], ok))
  {
    hide UpTo, QueueOk, ReturnedOk;
    var t := Complete(s, w, s.queue[n - 1], ok);
    var popped := s.queue[..n];
    forall r | r in t.completed
      ensures (r.0 in t.control && t.control[r.0] == Returned(r.1))
           || (IsAwake(t, r.0) && r.0 in t.done && t.done[r.0] == r.1)
    {
      if r in s.completed {
        NotPopped(s, w, n, r);
      } else {
        assert r.0 in popped && r.1 == ok && r.0 in s.queue;
      }
    }
    forall v | v in t.done
      ensures (v, t.done[v]) in t.completed
    {
      if v in popped {
        var i :| 0 <= i < n && popped[i] == v;
        assert Results(popped, ok)[i] == (v, ok);
      }
    }
  }

  lemma NotPopped(s: System, w: Writer, n: nat, r: (Writer, bool))
    requires QueueOk(s) && ControlOk(s) && w in s.control && Leads(s.control[w]) && r in s.completed && n <= |s.queue|
    ensures r.0 !in s.queue[..n] && r.0 !in s.queue[n..] && r.0 != w
  {
    if r.0 in s.queue { StillQueued(s, r.0); }
  }

  lemma CompletionKeepsReturned(s: System, w: Writer, n: nat, ok: bool)
    requires WritersOk(s) && w in s.control && Leads(s.control[w])
    requires 0 < n <= |s.queue| && UpTo(s.queue, s.queue[n - 1]) == n
    ensures ReturnedOk(Complete(s, w, s.queue[n - 1], ok))
  {
    hide UpTo, DoneOk, QueueOk, ReturnedOk, Results;
    var t := Complete(s, w, s.queue[n - 1], ok);
    FirstResult(s.queue[..n], w, ok);
    NotReturned(s, w);
    forall r | r in s.returned
      ensures r in t.completed && r.0 in t.control && t.control[r.0] == Returned(r.1)
    {
      ReturnedIsCompleted(s, r);
      NotPopped(s, w, n, r);
    }
    ReturnsGrow(s, t, w, ok);
  }

  lemma FirstResult(writers: seq<Writer>, w: Writer, ok: bool)
    requires writers != [] && writers[0] == w
    ensures (w, ok) in Results(writers, ok)
  {
    assert Results(writers, ok)[0] == (w, ok);
  }

  lemma ReturnedIsCompleted(s: System, r: (Writer, bool))
    requires ReturnedOk(s) && r in s.returned
    ensures r in s.completed && r.0 in s.control && s.control[r.0] == Returned(r.1)
  {
  }

  lemma ReturnsGrow(s: System, t: System, w: Writer, ok: bool)
    requires ReturnedOk(s) && t.returned == s.returned + [(w, ok)] && (w, ok) in t.completed
    requires w in t.control && t.control[w] == Returned(ok) && (forall r :: r in s.returned ==> r.0 != w)
    requires forall r :: r in s.returned ==> r in t.completed && r.0 in t.control && t.control[r.0] == Returned(r.1)
    requires forall v :: v in t.control && v != w && t.control[v].Returned? ==>
               v in s.control && t.control[v] == s.control[v]
    ensures ReturnedOk(t)
  {
  }

  predicate Moves(step: Step) {
    || step.Wait? || step.WakeUp? || step.Lead? || step.StartGroup?
    || step.AddRecord? || step.SyncLog? || step.InsertOne? || step.InsertFails?
  }

  lemma MoveKeepsWriters(s: System, step: Step)
    requires WritersOk(s) && Allowed(s, step) && Moves(step)
    ensures WritersOk(Apply(s, step))
  {
    hide QueueOk, DoneOk, ReturnedOk, UpTo, Complete, IsGroup, Joined;
    var t := Apply(s, step);
    OneMovesOn(s, t, step.w, t.control[step.w]);
  }

  /** Where a working writer is, and its group. */
  lemma GroupIsAtFront(s: System, w: Writer)
    requires Inv(s) && w in s.control && s.control[w].Working?
    ensures IsFront(s, w) && s.Front() == s.control[w]
    ensures var g := s.control[w].group; var n := |g.members|;
            && 0 < n <= |s.queue| && g.members == s.queue[..n] && g.members[n - 1] == s.queue[n - 1]
            && w == g.members[0]
            && g.inserted <= |g.ops| && g.first == s.lastSequence + 1
  {
    hide MemOf, LogOf, Durable, Accounted, Consecutive, QueueOk, DoneOk, ReturnedOk;
  }

  /** The same writers in the same states. */
  lemma SameWriters(s: System, t: System)
    requires t.queue == s.queue && t.control == s.control && t.done == s.done && t.completed == s.completed
    requires t.returned == s.returned && t.arrivals == s.arrivals && WritersOk(s)
    ensures WritersOk(t)
  {
    hide Distinct;
  }

  lemma FailureKeepsWriters(s: System)
    requires WritersOk(s)
    ensures WritersOk(Apply(s, BackgroundFails))
  {
    hide WritersOk;
    SameWriters(s, Apply(s, BackgroundFails));
  }

  lemma StepKeepsWriters(s: System, step: Step)
    requires Inv(s) && Allowed(s, step)
    ensures WritersOk(Apply(s, step))
  {
    hide WorkOk, QueueOk, ControlOk, DoneOk, ReturnedOk, Apply, Allowed;
    match step
    case Enqueue(w) => EnqueueKeepsWriters(s, w);
    case Return(w) => ReturnKeepsWriters(s, w);
    case Leave(w, ok) => LeaveKeepsWork(s, w, ok);
    case Finish(w) => FinishKeepsWriters(s, w);
    case BackgroundFails => FailureKeepsWriters(s);
    case _ => MoveKeepsWriters(s, step);
  }

  lemma FinishKeepsWriters(s: System, w: Writer)
    requires Inv(s) && Allowed(s, Finish(w))
    ensures WritersOk(Apply(s, Finish(w))) && !Apply(s, Finish(w)).Front().Working?
    ensures CompletesGroup(s, Apply(s, Finish(w)), w)
  {
    hide Inv, WritersOk, UpTo, Complete, System.Front, Apply, Allowed;
    FinishIs(s, w);
    GroupIsAtFront(s, w);
    var g := s.control[w].group;
    var n := |g.members|;
    WritersAreOk(s);
    CompletionKeepsWriters(s, w, n, g.ok);
    NobodyWorks(s, w, n, g.ok);
    var t := Complete(s, w, s.queue[n - 1], g.ok);
    CompletedIs(s, w, n, g.ok);
    SameWriters(t, Apply(s, Finish(w)));
    SameFront(t, Apply(s, Finish(w)));
  }

  /** All of the group of `w` are completed. */
  ghost predicate CompletesGroup(s: System, t: System, w: Writer) {
    && w in s.control && s.control[w].Working?
    && t.completed == s.completed + Results(s.control[w].group.members, s.control[w].group.ok)
  }

  lemma FinishIs(s: System, w: Writer)
    requires Allowed(s, Finish(w))
    ensures w in s.control && s.control[w].Working? && s.control[w].group.members != []
    ensures var t, g := Apply(s, Finish(w)), s.control[w].group;
            var c := Complete(s, w, g.members[|g.members| - 1], g.ok);
            && t.queue == c.queue && t.control == c.control && t.done == c.done && t.completed == c.completed
            && t.returned == c.returned && t.arrivals == c.arrivals
  {
    hide Complete;
  }

  lemma WritersAreOk(s: System)
    requires Inv(s)
    ensures WritersOk(s)
  {
  }

  lemma CompletedIs(s: System, w: Writer, n: nat, ok: bool)
    requires 0 < n <= |s.queue| && UpTo(s.queue, s.queue[n - 1]) == n
    ensures Complete(s, w, s.queue[n - 1], ok).completed == s.completed + Results(s.queue[..n], ok)
  {
  }

  lemma SameFront(s: System, t: System)
    requires t.queue == s.queue && t.control == s.control
    ensures t.Front() == s.Front()
  {
  }

  /** The front of the queue left over is not at work. */
  lemma NobodyWorks(s: System, w: Writer, n: nat, ok: bool)
    requires WritersOk(s) && w in s.control && Leads(s.control[w]) && 0 < n <= |s.queue|
    requires UpTo(s.queue, s.queue[n - 1]) == n
    ensures var t := Complete(s, w, s.queue[n - 1], ok); t.queue == s.queue[n..] && !t.Front().Working?
  {
    hide UpTo, DoneOk, ReturnedOk;
    QueueIsDistinct(s);
    var t := Complete(s, w, s.queue[n - 1], ok);
    if t.queue != [] { BehindIsWaiting(s, w, n, t.queue[0]); }
  }

  // Their work

  lemma {:induction false} LastGroup(groups: seq<Group>, g: Group)
    ensures MemOf(groups + [g]) ==
            MemOf(groups) + NumberFrom(g.first, if g.inserted <= |g.ops| then g.ops[..g.inserted] else g.ops)
    ensures LogOf(groups + [g]) == LogOf(groups) + LogPart(g)
    ensures g.first > 0 && Consecutive(groups, g.first - 1) ==> Consecutive(groups + [g], g.first + |g.ops| - 1)
  {
    assert (groups + [g])[..|groups|] == groups;
  }

  /** A step that is not the working writer's leaves its work as it is. */
  lemma SameWork(s: System, t: System)
    requires WorkOk(s) && Current(t) == Current(s)
    requires s.Front().Working? ==> t.Front() == s.Front() && s.queue <= t.queue
    requires t.groups == s.groups && t.lastSequence == s.lastSequence && t.mem == s.mem && t.log == s.log
    requires t.syncedRecords == s.syncedRecords && t.completed == s.completed
    ensures WorkOk(t)
  {
  }

  lemma LeaveKeepsWork(s: System, w: Writer, ok: bool)
    requires Inv(s) && Allowed(s, Leave(w, ok))
    ensures Inv(Apply(s, Leave(w, ok)))
    ensures var t := Apply(s, Leave(w, ok));
            && t.completed == s.completed + [(w, ok)] && !t.Front().Working? && t.log == s.log && t.mem == s.mem
            && t.backgroundError == s.backgroundError
  {
    hide WorkOk, UpTo, QueueOk, DoneOk, ReturnedOk, System.Front;
    OnlyTheFrontWorks(s, w);
    var t := Apply(s, Leave(w, ok));
    CompletionKeepsWriters(s, w, 1, ok);
    NobodyWorks(s, w, 1, ok);
    assert Results(s.queue[..1], ok) == [(w, ok)];
    OneMoreCompleted(s, t, w, ok);
  }

  lemma OneMoreCompleted(s: System, t: System, w: Writer, ok: bool)
    requires WorkOk(s) && !s.Front().Working? && !t.Front().Working? && (ok ==> w.batch.None?)
    requires t.groups == s.groups && t.lastSequence == s.lastSequence && t.mem == s.mem && t.log == s.log
    requires t.syncedRecords == s.syncedRecords && t.completed == s.completed + [(w, ok)]
    ensures WorkOk(t)
  {
    hide MemOf, LogOf, Durable, Consecutive, GroupOk, Settled, System.Front;
  }

  /** Of the writers that join, only those of a synced leader wanted the log synced. */
  lemma {:induction false} StartKeepsWork(s: System, w: Writer, n: nat)
    requires Inv(s) && Allowed(s, StartGroup(w, n))
    ensures WorkOk(Apply(s, StartGroup(w, n)))
  {
    hide QueueOk, DoneOk, ReturnedOk, UpTo, MemOf, LogOf, Durable, Accounted, Consecutive, TotalSize, Settled;
    var t := Apply(s, StartGroup(w, n));
    assert t.Front() == t.control[w];
    var g := t.Front().group;
    LastGroup(s.groups, g);
    assert s.groups + Current(s) == s.groups;
    assert NumberFrom(g.first, g.ops[..0]) == [];
    forall v | v in g.members && v.sync
      ensures g.members[0].sync
    {
      var i :| 0 <= i < n && s.queue[..n][i] == v;
      assert i > 0 ==> MayJoin(s.queue, i);
    }
    DurableMore(s.groups, g, s.syncedRecords);
  }

  /** One more group, not synced or with the whole log on disk. */
  lemma DurableMore(groups: seq<Group>, g: Group, onDisk: nat)
    requires Durable(groups, onDisk) && (g.synced ==> |LogOf(groups + [g])| <= onDisk)
    ensures Durable(groups + [g], onDisk)
  {
    var all := groups + [g];
    forall i | 0 <= i < |all| && all[i].synced
      ensures |LogOf(all[..i + 1])| <= onDisk
    {
      if i < |groups| {
        assert all[..i + 1] == groups[..i + 1];
      } else {
        assert all[..i + 1] == all;
      }
    }
  }

  lemma DurableFront(groups: seq<Group>, g: Group, onDisk: nat)
    requires Durable(groups + [g], onDisk)
    ensures Durable(groups, onDisk)
  {
    forall i | 0 <= i < |groups| && groups[i].synced
      ensures |LogOf(groups[..i + 1])| <= onDisk
    {
      assert (groups + [g])[i] == groups[i] && (groups + [g])[..i + 1] == groups[..i + 1];
    }
  }

  lemma GroupInRange(s: System)
    requires CurrentOk(s) && s.Front().Working?
    ensures s.Front().group.inserted <= |s.Front().group.ops|
  {
  }

  lemma DurableLast(groups: seq<Group>, g: Group, onDisk: nat)
    requires Durable(groups + [g], onDisk)
    ensures g.synced ==> |LogOf(groups + [g])| <= onDisk
  {
    var all := groups + [g];
    assert all[|groups|] == g && all[..|groups| + 1] == all;
  }

  /** A step of the working writer: only its group, the log, the memtable and the records on disk change. */
  lemma WorkGoesOn(s: System, t: System, added: seq<Numbered>)
    requires WorkOk(s) && s.Front().Working? && t.Front().Working? && CurrentOk(t)
    requires t.groups == s.groups && t.completed == s.completed && t.lastSequence == s.lastSequence
    requires t.mem == s.mem + added && t.Front().group.first == s.Front().group.first
    requires NumberFrom(t.Front().group.first, t.Front().group.ops[..t.Front().group.inserted])
             == NumberFrom(s.Front().group.first, s.Front().group.ops[..s.Front().group.inserted]) + added
    requires t.log == LogOf(s.groups) + LogPart(t.Front().group)
    requires s.syncedRecords <= t.syncedRecords <= |t.log| && (t.Front().group.synced ==> t.syncedRecords == |t.log|)
    ensures WorkOk(t)
  {
    hide MemOf, LogOf, Consecutive, Accounted, CurrentOk, Durable, NumberFrom, System.Front;
    var g, h := s.Front().group, t.Front().group;
    GroupInRange(s);
    GroupInRange(t);
    LastGroup(s.groups, g);
    LastGroup(s.groups, h);
    var a, b := MemOf(s.groups), NumberFrom(g.first, g.ops[..g.inserted]);
    assert a + (b + added) == a + b + added;
    DurableFront(s.groups, g, s.syncedRecords);
    DurableLater(s.groups, s.syncedRecords, t.syncedRecords);
    DurableMore(s.groups, h, t.syncedRecords);
  }

  lemma DurableLater(groups: seq<Group>, onDisk: nat, later: nat)
    requires Durable(groups, onDisk) && onDisk <= later
    ensures Durable(groups, later)
  {
  }

  /** What WorkGoesOn needs to know of the state before. */
  lemma WorkIs(s: System)
    requires WorkOk(s) && s.Front().Working?
    ensures var g := s.Front().group;
            && CurrentOk(s) && s.syncedRecords <= |s.log| && g.inserted <= |g.ops| && g.members != []
            && g.members[0] == s.queue[0]
            && s.log == LogOf(s.groups) + LogPart(g)
            && (g.synced ==> s.syncedRecords == |s.log|)
  {
    LastGroup(s.groups, s.Front().group);
    DurableLast(s.groups, s.Front().group, s.syncedRecords);
  }

  lemma InsertOneKeepsWork(s: System, w: Writer)
    requires WorkOk(s) && IsFront(s, w) && Allowed(s, InsertOne(w))
    ensures WorkOk(Apply(s, InsertOne(w)))
  {
    hide WorkOk, LogOf, NumberFrom;
    WorkIs(s);
    var t, g := Apply(s, InsertOne(w)), s.Front().group;
    NumberOneMore(g.first, g.ops, g.inserted);
    WorkGoesOn(s, t, [Numbered(g.first + g.inserted, g.ops[g.inserted])]);
  }

  lemma NumberOneMore(first: nat, ops: seq<Op>, n: nat)
    requires n < |ops|
    ensures NumberFrom(first, ops[..n + 1]) == NumberFrom(first, ops[..n]) + [Numbered(first + n, ops[n])]
  {
  }

  // The steps that put nothing into the memtable

  lemma NothingMore(g: Group, mem: seq<Numbered>)
    requires g.inserted <= |g.ops|
    ensures mem + [] == mem
    ensures NumberFrom(g.first, g.ops[..g.inserted]) + [] == NumberFrom(g.first, g.ops[..g.inserted])
  {
  }

  lemma AddRecordKeepsWork(s: System, w: Writer, ok: bool)
    requires WorkOk(s) && Allowed(s, AddRecord(w, ok)) && IsFront(s, w)
    ensures WorkOk(Apply(s, AddRecord(w, ok)))
  {
    hide WorkOk, LogOf, NumberFrom, Complete, UpTo, IsGroup, Joined;
    WorkIs(s);
    NothingMore(s.Front().group, s.mem);
    assert LogOf(s.groups) + [] == LogOf(s.groups);
    WorkGoesOn(s, Apply(s, AddRecord(w, ok)), []);
  }

  lemma SyncLogKeepsWork(s: System, w: Writer, ok: bool)
    requires WorkOk(s) && Allowed(s, SyncLog(w, ok)) && IsFront(s, w)
    ensures WorkOk(Apply(s, SyncLog(w, ok)))
  {
    hide WorkOk, LogOf, NumberFrom, Complete, UpTo, IsGroup, Joined;
    WorkIs(s);
    NothingMore(s.Front().group, s.mem);
    WorkGoesOn(s, Apply(s, SyncLog(w, ok)), []);
  }

  lemma InsertFailsKeepsWork(s: System, w: Writer)
    requires WorkOk(s) && Allowed(s, InsertFails(w)) && IsFront(s, w)
    ensures WorkOk(Apply(s, InsertFails(w)))
  {
    hide WorkOk, LogOf, NumberFrom, Complete, UpTo, IsGroup, Joined;
    WorkIs(s);
    NothingMore(s.Front().group, s.mem);
    WorkGoesOn(s, Apply(s, InsertFails(w)), []);
  }

  lemma FinishKeepsWork(s: System, w: Writer)
    requires Inv(s) && Allowed(s, Finish(w))
    ensures WorkOk(Apply(s, Finish(w)))
  {
    hide WorkOk, UpTo, QueueOk, DoneOk, ReturnedOk, MemOf, LogOf, Durable, Accounted, GroupOk, Consecutive;
    GroupIsAtFront(s, w);
    FinishKeepsWriters(s, w);
    hide Inv, Complete, System.Front;
    GroupIsSettled(s, w);
    GroupJoins(s, Apply(s, Finish(w)), s.control[w].group);
  }

  lemma GroupIsSettled(s: System, w: Writer)
    requires WorkOk(s) && Allowed(s, Finish(w)) && s.Front() == s.control[w] && s.queue != []
    ensures Settled(s.control[w].group) && GroupOk(s.control[w].group)
  {
    hide MemOf, LogOf, Durable, Accounted, Consecutive;
  }

  /** The group at the front becomes one of the finished ones. */
  lemma GroupJoins(s: System, t: System, g: Group)
    requires WorkOk(s) && s.Front().Working? && g == s.Front().group && !t.Front().Working? && Settled(g) && GroupOk(g)
    requires t.groups == s.groups + [g] && t.lastSequence == g.first + |g.ops| - 1 && t.mem == s.mem && t.log == s.log
    requires t.syncedRecords == s.syncedRecords && t.completed == s.completed + Results(g.members, g.ok)
    ensures WorkOk(t)
  {
    hide MemOf, LogOf, Durable, Accounted, GroupOk, Settled, System.Front;
    LastGroup(s.groups, g);
    assert t.groups + Current(t) == s.groups + Current(s);
    FinishAccounts(s.groups, g, s.completed);
  }

  lemma FinishAccounts(groups: seq<Group>, g: Group, completed: seq<(Writer, bool)>)
    requires Accounted(groups, completed)
    ensures Accounted(groups + [g], completed + Results(g.members, g.ok))
  {
    var all := completed + Results(g.members, g.ok);
    forall r | r in all
      ensures (exists h :: h in groups + [g] && h.ok == r.1 && r.0 in h.members) || (r.1 ==> r.0.batch.None?)
    {
      if r in completed {
        if h :| h in groups && h.ok == r.1 && r.0 in h.members {
          assert h in groups + [g];
        }
      } else {
        assert r in Results(g.members, g.ok);
        assert g in groups + [g] && r.0 in g.members;
      }
    }
    forall h, w | h in groups + [g] && w in h.members
      ensures (w, h.ok) in all
    {
      if h !in groups {
        var i :| 0 <= i < |g.members| && g.members[i] == w;
        assert Results(g.members, g.ok)[i] == (w, g.ok);
      }
    }
  }

  lemma OnlyTheFrontWorks(s: System, w: Writer)
    requires Inv(s) && w in s.control && Leads(s.control[w])
    ensures IsFront(s, w) && s.Front() == s.control[w]
  {
  }

  lemma WaitingKeepsWork(s: System, step: Step)
    requires Inv(s) && Allowed(s, step)
    requires step.Enqueue? || step.Wait? || step.WakeUp? || step.Lead? || step.Return? || step.BackgroundFails?
    ensures WorkOk(Apply(s, step))
  {
    hide WorkOk, QueueOk, DoneOk, ReturnedOk;
    var t := Apply(s, step);
    if step.Enqueue? { EnqueueKeepsFront(s, step.w); }
    SameWork(s, t);
  }

  lemma EnqueueKeepsFront(s: System, w: Writer)
    requires Inv(s) && Allowed(s, Enqueue(w))
    ensures s.queue != [] ==> Apply(s, Enqueue(w)).Front() == s.Front()
  {
  }

  /** What writers do that wait, or come, does not touch the work under way. */
  lemma WaitingKeepsFront(s: System, step: Step)
    requires Inv(s) && Allowed(s, step)
    requires step.Enqueue? || step.Wait? || step.WakeUp? || step.Lead? || step.Return? || step.BackgroundFails?
    ensures var t := Apply(s, step);
            && t.Front().Working? == s.Front().Working? && (s.Front().Working? ==> t.Front() == s.Front())
  {
    hide WorkOk, QueueOk, DoneOk, ReturnedOk;
    if step.Enqueue? { EnqueueKeepsFront(s, step.w); }
  }

  lemma StepKeepsInv(s: System, step: Step)
    requires Inv(s) && Allowed(s, step)
    ensures Inv(Apply(s, step))
  {
    hide WorkOk, WritersOk;
    StepKeepsWriters(s, step);
    match step
    case StartGroup(w, n) => StartKeepsWork(s, w, n);
    case InsertOne(w) => OnlyTheFrontWorks(s, w); InsertOneKeepsWork(s, w);
    case AddRecord(w, ok) => OnlyTheFrontWorks(s, w); AddRecordKeepsWork(s, w, ok);
    case SyncLog(w, ok) => OnlyTheFrontWorks(s, w); SyncLogKeepsWork(s, w, ok);
    case InsertFails(w) => OnlyTheFrontWorks(s, w); InsertFailsKeepsWork(s, w);
    case Leave(w, ok) => LeaveKeepsWork(s, w, ok);
    case Finish(w) => FinishKeepsWork(s, w);
    case _ => WaitingKeepsWork(s, step);
  }

  // Runs

  ghost predicate IsRun(s: System, steps: seq<Step>)
    decreases |steps|
  {
    steps != [] ==> Allowed(s, steps[0]) && IsRun(Apply(s, steps[0]), steps[1..])
  }

  ghost function EndOf(s: System, steps: seq<Step>): System
    requires IsRun(s, steps)
    decreases |steps|
  {
    if steps == [] then s else EndOf(Apply(s, steps[0]), steps[1..])
  }

  lemma {:induction false} RunKeepsInv(s: System, steps: seq<Step>)
    requires Inv(s) && IsRun(s, steps)
    ensures Inv(EndOf(s, steps))
    decreases |steps|
  {
    hide Inv, Allowed, Apply;
    if steps != [] {
      StepKeepsInv(s, steps[0]);
      RunKeepsInv(Apply(s, steps[0]), steps[1..]);
    }
  }

  lemma ReachableIsInOrder(s: System, steps: seq<Step>)
    requires IsNew(s) && IsRun(s, steps)
    ensures Inv(EndOf(s, steps))
  {
    NewIsInOrder(s);
    RunKeepsInv(s, steps);
  }

  /** In every interleaving at most one writer makes room, logs or inserts, and it is the front of the queue. */
  lemma OneLeader(s: System, steps: seq<Step>, v: Writer, w: Writer)
    requires IsNew(s) && IsRun(s, steps)
    requires var end := EndOf(s, steps);
             v in end.control && Leads(end.control[v]) && w in end.control && Leads(end.control[w])
    ensures v == w && IsFront(EndOf(s, steps), w)
  {
    ReachableIsInOrder(s, steps);
    OnlyTheFrontWorks(EndOf(s, steps), v);
    OnlyTheFrontWorks(EndOf(s, steps), w);
  }

  /** In every interleaving writers are completed in the order they came, each once. */
  lemma FirstInFirstOut(s: System, steps: seq<Step>)
    requires IsNew(s) && IsRun(s, steps)
    ensures var end := EndOf(s, steps);
            && |end.completed| <= |end.arrivals|
            && Writers(end.completed) == end.arrivals[..|end.completed|] && end.queue == end.arrivals[|end.completed|..]
            && Distinct(end.arrivals)
  {
    ReachableIsInOrder(s, steps);
  }

  /**
   * In every interleaving every writer returns at most once, after it is completed, and with the status of its group;
   * without a group it succeeds only if it had nothing to write. A completed writer has returned or may do so at once.
   */
  lemma EachReturnsItsStatus(s: System, steps: seq<Step>)
    requires IsNew(s) && IsRun(s, steps)
    ensures var end := EndOf(s, steps);
            && (forall i, j :: 0 <= i < j < |end.returned| ==> end.returned[i].0 != end.returned[j].0)
            && (forall r :: r in end.returned ==> r in end.completed)
            && (forall r :: r in end.completed ==>
                  (exists g :: g in end.groups && g.ok == r.1 && r.0 in g.members) || (r.1 ==> r.0.batch.None?))
            && (forall g, w :: g in end.groups && w in g.members ==> (w, g.ok) in end.completed)
            && forall r :: r in end.completed && r !in end.returned ==>
                 Allowed(end, Return(r.0)) && end.done[r.0] == r.1
  {
    hide Inv, IsRun, QueueOk, ControlOk, DoneOk, ReturnedOk;
    ReachableIsInOrder(s, steps);
    AccountedIn(EndOf(s, steps));
    StatusesIn(EndOf(s, steps));
  }

  lemma StatusesIn(s: System)
    requires Inv(s)
    ensures forall i, j :: 0 <= i < j < |s.returned| ==> s.returned[i].0 != s.returned[j].0
    ensures forall r :: r in s.returned ==> r in s.completed
    ensures forall r :: r in s.completed && r !in s.returned ==> Allowed(s, Return(r.0)) && s.done[r.0] == r.1
  {
    hide WorkOk, QueueOk, ControlOk;
  }

  lemma AccountedIn(s: System)
    requires Inv(s)
    ensures Accounted(s.groups, s.completed)
  {
  }

  lemma {:induction false} OneMoreStep(s: System, steps: seq<Step>, step: Step)
    requires IsRun(s, steps) && Allowed(EndOf(s, steps), step)
    ensures IsRun(s, steps + [step]) && EndOf(s, steps + [step]) == Apply(EndOf(s, steps), step)
    decreases |steps|
  {
    hide Allowed, Apply;
    var all := steps + [step];
    if steps == [] {
      assert all[1..] == [];
    } else {
      assert all[1..] == steps[1..] + [step];
      OneMoreStep(Apply(s, steps[0]), steps[1..], step);
    }
  }

  function Small(id: nat): Writer { Writer(id, Some(Batch([], 0)), false) }

  const LEADER: Writer := Small(0)
  const FOLLOWER: Writer := Small(1)
  const LATER: Writer := Small(2)

  function EmptyGroup(members: seq<Writer>): Group { Group(members, 1, [], false, false, 0, true) }

  /** The first writer leads a group of two, and a third has queued up. */
  function TwoInAGroup(): System {
    System([LEADER, FOLLOWER, LATER],
           map[LEADER := Working(EmptyGroup([LEADER, FOLLOWER]), ToLog), FOLLOWER := Waiting(true),
               LATER := Waiting(false)],
           map[], 0, [], 0, [], [], [], [], [LEADER, FOLLOWER, LATER], false)
  }

  /** The group is done, and its follower has not noticed yet. */
  function OneIsLeft(): System {
    System([LATER], map[LEADER := Returned(true), FOLLOWER := Waiting(false), LATER := Waiting(false)],
           map[FOLLOWER := true], 0, [(1, [])], 0, [], [EmptyGroup([LEADER, FOLLOWER]).(logged := true)],
           [(LEADER, true), (FOLLOWER, true)], [(LEADER, true)], [LEADER, FOLLOWER, LATER], false)
  }

  lemma ToTwoInAGroup(s: System) returns (steps: seq<Step>)
    requires IsNew(s)
    ensures IsRun(s, steps) && EndOf(s, steps) == TwoInAGroup()
  {
    hide UpTo, Complete, Joined, IsGroup;
    steps := [];
    OneMoreStep(s, steps, Enqueue(LEADER));
    steps := steps + [Enqueue(LEADER)];
    OneMoreStep(s, steps, Lead(LEADER));
    steps := steps + [Lead(LEADER)];
    OneMoreStep(s, steps, Enqueue(FOLLOWER));
    steps := steps + [Enqueue(FOLLOWER)];
    OneMoreStep(s, steps, Wait(FOLLOWER));
    steps := steps + [Wait(FOLLOWER)];
    var t := EndOf(s, steps);
    assert t.queue == [LEADER, FOLLOWER];
    AGroupOf(t.queue);
    assert t.queue[..2] == t.queue;
    OneMoreStep(s, steps, StartGroup(LEADER, 2));
    steps := steps + [StartGroup(LEADER, 2)];
    OneMoreStep(s, steps, Enqueue(LATER));
    steps := steps + [Enqueue(LATER)];
  }

  lemma AGroupOf(writers: seq<Writer>)
    requires writers == [LEADER, FOLLOWER] || writers == [LATER]
    ensures IsGroup(writers, |writers|) && Joined(writers) == []
  {
    assert writers[..1] == [writers[0]] && [writers[0]][..0] == [];
    assert TotalSize([writers[0]]) == TotalSize([]) + 0 && Joined([writers[0]]) == Joined([]) + [];
    assert |writers| == 2 ==> writers[..2] == writers && TotalSize(writers) == 0;
    assert |writers| == 2 ==> Joined(writers) == Joined(writers[..1]) + [];
  }

  lemma ToOneIsLeft(s: System, before: seq<Step>) returns (steps: seq<Step>)
    requires IsRun(s, before) && EndOf(s, before) == TwoInAGroup()
    ensures IsRun(s, steps) && EndOf(s, steps) == OneIsLeft()
  {
    hide IsRun, EndOf, UpTo, Complete, Joined, IsGroup;
    steps := before;
    OneMoreStep(s, steps, AddRecord(LEADER, true));
    steps := steps + [AddRecord(LEADER, true)];
    LeaderCompletes(EndOf(s, steps));
    OneMoreStep(s, steps, Finish(LEADER));
    steps := steps + [Finish(LEADER)];
  }

  lemma LeaderCompletes(t: System)
    requires var g := EmptyGroup([LEADER, FOLLOWER]).(logged := true);
             t == AtWork(TwoInAGroup(), LEADER, g, ToInsert).(log := [(1, [])])
    ensures Complete(t, LEADER, FOLLOWER, true) == OneIsLeft().(groups := [])
  {
    hide UpTo, Complete;
    TwoComplete(t, LEADER, FOLLOWER, LATER, t.control[LEADER]);
  }

  ghost predicate TwoAndOne(t: System, v: Writer, w: Writer, next: Writer, c: Control) {
    && v != w && v != next && w != next && t.queue == [v, w, next] && t.done == map[]
    && t.completed == [] && t.returned == []
    && t.control == map[v := c, w := Waiting(true), next := Waiting(false)]
  }

  lemma TwoComplete(t: System, v: Writer, w: Writer, next: Writer, c: Control)
    requires TwoAndOne(t, v, w, next, c)
    ensures Complete(t, v, w, true) ==
            t.(queue := [next], completed := [(v, true), (w, true)], returned := [(v, true)], done := map[w := true],
               control := map[v := Returned(true), w := Waiting(false), next := Waiting(false)])
  {
    hide UpTo, TwoAndOne;
    TwoPopped(t, v, w, next, c);
    TwoDone(t, v, w, next, c);
    TwoMoved(t, v, w, next, c);
  }

  lemma TwoPopped(t: System, v: Writer, w: Writer, next: Writer, c: Control)
    requires TwoAndOne(t, v, w, next, c)
    ensures UpTo(t.queue, w) == 2 && t.queue[..2] == [v, w] && t.queue[2..] == [next]
    ensures Complete(t, v, w, true).completed == [(v, true), (w, true)] && Complete(t, v, w, true).returned == [(v, true)]
  {
    hide UpTo;
    UpToLast(t.queue, 2);
  }

  lemma TwoDone(t: System, v: Writer, w: Writer, next: Writer, c: Control)
    requires TwoAndOne(t, v, w, next, c)
    ensures Complete(t, v, w, true).done == map[w := true]
  {
    hide UpTo;
    TwoPopped(t, v, w, next, c);
    assert Complete(t, v, w, true).done.Keys == {w};
  }

  lemma TwoMoved(t: System, v: Writer, w: Writer, next: Writer, c: Control)
    requires TwoAndOne(t, v, w, next, c)
    ensures Complete(t, v, w, true).control == map[v := Returned(true), w := Waiting(false), next := Waiting(false)]
  {
    hide UpTo, Results;
    TwoPopped(t, v, w, next, c);
    assert Complete(t, v, w, true).control.Keys == {v, w, next};
  }

  /**
   * Completion is first in first out, return is not: a writer behind the group may take the mutex before a follower
   * that is done, lead a group of its own and return first.
   */
  lemma LaterMayReturnFirst(s: System) returns (steps: seq<Step>)
    requires IsNew(s)
    ensures IsRun(s, steps)
    ensures var end := EndOf(s, steps);
            && end.completed == [(LEADER, true), (FOLLOWER, true), (LATER, true)]
            && end.returned == [(LEADER, true), (LATER, true)] && Allowed(end, Return(FOLLOWER))
  {
    hide IsRun, EndOf, UpTo, Complete, Joined, IsGroup;
    steps := ToTwoInAGroup(s);
    steps := ToOneIsLeft(s, steps);
    OneMoreStep(s, steps, Lead(LATER));
    steps := steps + [Lead(LATER)];
    AGroupOf([LATER]);
    assert [LATER][..1] == [LATER];
    OneMoreStep(s, steps, StartGroup(LATER, 1));
    steps := steps + [StartGroup(LATER, 1)];
    OneMoreStep(s, steps, AddRecord(LATER, true));
    steps := steps + [AddRecord(LATER, true)];
    LaterCompletes(EndOf(s, steps));
    OneMoreStep(s, steps, Finish(LATER));
    steps := steps + [Finish(LATER)];
  }

  lemma LaterCompletes(t: System)
    requires t.queue == [LATER] && t.completed == OneIsLeft().completed && t.returned == OneIsLeft().returned
    requires t.done == OneIsLeft().done && FOLLOWER in t.control && t.control[FOLLOWER] == Waiting(false)
    ensures var end := Complete(t, LATER, LATER, true);
            && end.completed == [(LEADER, true), (FOLLOWER, true), (LATER, true)]
            && end.returned == [(LEADER, true), (LATER, true)] && Allowed(end, Return(FOLLOWER))
  {
    assert UpTo(t.queue, LATER) == 1;
    assert t.queue[..1] == [LATER];
  }

  /** What the writer may do next that is at the front. */
  function NextAtFront(s: System): Step
    requires s.queue != []
  {
    var w := s.queue[0];
    match s.Front()
    case Waiting(_) => Lead(w)
    case MakingRoom => Leave(w, false)
    case Working(g, stage) =>
      (match stage
       case ToLog => AddRecord(w, true)
       case ToSync => SyncLog(w, true)
       case ToInsert => if g.inserted < |g.ops| then InsertOne(w) else Finish(w)
       case Over => Finish(w))
    case Returned(_) => Wait(w)
  }

  /**
   * No wake-up is lost: in every interleaving nobody sleeps who is done or at the front of the queue, so the writer at
   * the front can always go on.
   */
  lemma NoWakeupIsLost(s: System, steps: seq<Step>, w: Writer)
    requires IsNew(s) && IsRun(s, steps)
    ensures var end := EndOf(s, steps);
            && (w in end.control && end.control[w] == Waiting(true) ==>
                  w in end.queue && !IsFront(end, w) && w !in end.done)
            && (end.queue != [] ==> Allowed(end, NextAtFront(end)))
  {
    hide Inv, Allowed;
    ReachableIsInOrder(s, steps);
    var end := EndOf(s, steps);
    WritersAreOk(end);
    if w in end.control && end.control[w] == Waiting(true) { SleeperIsQueued(end, w); }
    if end.queue != [] { FrontGoesOn(end); }
  }

  lemma FrontGoesOn(s: System)
    requires Inv(s) && s.queue != []
    ensures Allowed(s, NextAtFront(s))
  {
    hide WorkOk, QueueOk, DoneOk, ReturnedOk;
    assert s.queue[0] in s.queue;
    if s.Front().Working? { GroupIsAtFront(s, s.queue[0]); }
  }

  lemma SleeperIsQueued(s: System, w: Writer)
    requires WritersOk(s) && w in s.control && s.control[w] == Waiting(true)
    ensures w in s.queue && w !in s.done && !IsFront(s, w)
  {
    hide ReturnedOk;
    var i :| 0 <= i < |s.arrivals| && s.arrivals[i] == w;
    forall k | 0 <= k < |s.completed|
      ensures Writers(s.completed)[k] != w
    {
      assert s.completed[k] in s.completed;
    }
  }

  // Sequence numbers and what readers see

  lemma {:induction false} GroupsAreApart(groups: seq<Group>, last: nat, i: nat)
    requires Consecutive(groups, last) && i < |groups|
    ensures 0 < groups[i].first && groups[i].first + |groups[i].ops| - 1 <= last
    ensures i + 1 < |groups| ==> groups[i + 1].first == groups[i].first + |groups[i].ops|
    decreases |groups|
  {
    var front, g := groups[..|groups| - 1], groups[|groups| - 1];
    if i < |front| {
      GroupsAreApart(front, g.first - 1, i);
      if i + 1 == |front| { LastOfConsecutive(front, g.first - 1); }
    }
  }

  lemma LastOfConsecutive(groups: seq<Group>, last: nat)
    requires Consecutive(groups, last) && groups != []
    ensures groups[|groups| - 1].first + |groups[|groups| - 1].ops| - 1 == last
  {
  }

  lemma {:induction false} InsertedIsInMem(groups: seq<Group>, g: Group, i: nat)
    requires g in groups && i < g.inserted <= |g.ops|
    ensures Numbered(g.first + i, g.ops[i]) in MemOf(groups)
  {
    var front, last := groups[..|groups| - 1], groups[|groups| - 1];
    assert groups == front + [last];
    if g in front {
      InsertedIsInMem(front, g, i);
    } else {
      var part := NumberFrom(g.first, g.ops[..g.inserted]);
      assert part[i] == Numbered(g.first + i, g.ops[i]) && part[i] in part;
    }
  }

  /** No two entries of the memtable carry the same sequence number: they come in increasing order. */
  ghost predicate MemIncreases(mem: seq<Numbered>, below: nat) {
    && (forall i, j :: 0 <= i < j < |mem| ==> mem[i].seqno < mem[j].seqno)
    && (forall i :: 0 <= i < |mem| ==> 0 < mem[i].seqno <= below)
  }

  lemma {:induction false} MemIsIncreasing(groups: seq<Group>, last: nat)
    requires Consecutive(groups, last) && forall g :: g in groups ==> GroupOk(g)
    ensures MemIncreases(MemOf(groups), last)
    decreases |groups|
  {
    hide GroupOk;
    if groups != [] {
      var front, g := groups[..|groups| - 1], groups[|groups| - 1];
      assert groups == front + [g];
      InsertedInRange(g);
      MemIsIncreasing(front, g.first - 1);
      Appended(MemOf(front), g.first, g.ops[..g.inserted], last);
    }
  }

  lemma InsertedInRange(g: Group)
    requires GroupOk(g)
    ensures g.inserted <= |g.ops|
  {
  }

  lemma Appended(mem: seq<Numbered>, first: nat, ops: seq<Op>, last: nat)
    requires first > 0 && MemIncreases(mem, first - 1) && first + |ops| - 1 <= last
    ensures MemIncreases(mem + NumberFrom(first, ops), last)
  {
    var all := mem + NumberFrom(first, ops);
    forall i | 0 <= i < |all|
      ensures 0 < all[i].seqno <= last && (i < |mem| <==> all[i].seqno < first)
    {
    }
  }

  /**
   * A reader at the last sequence number sees all of every batch that succeeded and nothing of the one being written:
   * in any interleaving, also while a group is only partly in the memtable.
   */
  lemma ReadersSeeWholeGroups(s: System, steps: seq<Step>, g: Group, i: nat)
    requires IsNew(s) && IsRun(s, steps) && i < |g.ops|
    ensures var end := EndOf(s, steps);
            && (g in end.groups && g.ok ==>
                  Numbered(g.first + i, g.ops[i]) in end.mem && g.first + i <= end.lastSequence)
            && (end.Front().Working? && g == end.Front().group ==> g.first + i > end.lastSequence)
  {
    ReachableIsInOrder(s, steps);
    var end := EndOf(s, steps);
    if g in end.groups && g.ok {
      var k :| 0 <= k < |end.groups| && end.groups[k] == g;
      GroupsAreApart(end.groups, end.lastSequence, k);
      assert Settled(g) && GroupOk(g);
      assert g in end.groups + Current(end);
      InsertedIsInMem(end.groups + Current(end), g, i);
    }
  }

  /** What a reader sees at a snapshot never changes: new entries carry larger numbers. */
  lemma SnapshotsAreStable(s: System, step: Step, e: Numbered)
    requires Inv(s) && Allowed(s, step)
    ensures s.lastSequence <= Apply(s, step).lastSequence
    ensures e in s.mem ==> e in Apply(s, step).mem
    ensures e in Apply(s, step).mem && e.seqno <= s.lastSequence ==> e in s.mem
  {
    hide Inv, UpTo, IsGroup, Joined, System.Front;
    if step.Finish? || step.InsertOne? { GroupIsAtFront(s, step.w); }
  }

  /** A batch keeps together: within its group's range it has a range of its own, in the order of the queue. */
  lemma {:induction false} BatchHasItsRange(members: seq<Writer>, k: nat)
    requires k < |members|
    ensures var at, ops := |Joined(members[..k])|, OpsOf(members[k]);
            at + |ops| <= |Joined(members)| && Joined(members)[at..at + |ops|] == ops
    ensures |Joined(members[..k + 1])| == |Joined(members[..k])| + |OpsOf(members[k])|
    decreases |members|
  {
    var front := members[..|members| - 1];
    assert members[..k + 1][..k] == members[..k];
    if k < |front| {
      BatchHasItsRange(front, k);
      assert front[..k] == members[..k];
    } else {
      assert members[..k] == front;
    }
  }

  /**
   * A writer completed with success has its batch, whole and in one piece, in the memtable under numbers readers
   * see; and on disk, if it asked for that.
   */
  lemma SuccessIsLasting(s: System, steps: seq<Step>, w: Writer) returns (g: Group, first: nat)
    requires IsNew(s) && IsRun(s, steps) && (w, true) in EndOf(s, steps).completed && w.batch.Some?
    ensures var end, ops := EndOf(s, steps), w.batch.value.ops;
            && g in end.groups && w in g.members && g.logged
            && first + |ops| - 1 <= end.lastSequence
            && (forall i :: 0 <= i < |ops| ==> Numbered(first + i, ops[i]) in end.mem)
            && (w.sync ==> exists n :: 0 <= n < end.syncedRecords <= |end.log| && end.log[n] == (g.first, g.ops))
  {
    var end := EndOf(s, steps);
    ReachableIsInOrder(s, steps);
    g, first := SuccessIsKept(end, w);
  }

  lemma SuccessIsKept(s: System, w: Writer) returns (g: Group, first: nat)
    requires Inv(s) && (w, true) in s.completed && w.batch.Some?
    ensures var ops := w.batch.value.ops;
            && g in s.groups && w in g.members && g.logged
            && first + |ops| - 1 <= s.lastSequence
            && (forall i :: 0 <= i < |ops| ==> Numbered(first + i, ops[i]) in s.mem)
            && (w.sync ==> exists n :: 0 <= n < s.syncedRecords <= |s.log| && s.log[n] == (g.first, g.ops))
  {
    var j: nat, k: nat;
    g, j, k := GroupOf(s, w);
    hide Inv, MemOf, LogOf, Joined;
    GroupRange(s, j);
    BatchHasItsRange(g.members, k);
    first := g.first + |Joined(g.members[..k])|;
    BatchIsInMem(s, g, k, first);
    if w.sync { RecordOnDisk(s, j); }
  }

  lemma GroupOf(s: System, w: Writer) returns (g: Group, j: nat, k: nat)
    requires Inv(s) && (w, true) in s.completed && w.batch.Some?
    ensures j < |s.groups| && s.groups[j] == g && g.ok && GroupOk(g) && Settled(g)
    ensures k < |g.members| && g.members[k] == w && (w.sync ==> g.synced)
  {
    assert (w, true).0 == w;
    g :| g in s.groups && g.ok && w in g.members;
    j :| 0 <= j < |s.groups| && s.groups[j] == g;
    k :| 0 <= k < |g.members| && g.members[k] == w;
  }

  lemma GroupRange(s: System, j: nat)
    requires Inv(s) && j < |s.groups|
    ensures s.groups[j].first > 0 && s.groups[j].first + |s.groups[j].ops| - 1 <= s.lastSequence
  {
    GroupsAreApart(s.groups, s.lastSequence, j);
  }

  lemma BatchIsInMem(s: System, g: Group, k: nat, first: nat)
    requires Inv(s) && g in s.groups && GroupOk(g) && Settled(g) && g.ok && k < |g.members| && g.members[k].batch.Some?
    requires first == g.first + |Joined(g.members[..k])|
    ensures var ops := g.members[k].batch.value.ops;
            forall i :: 0 <= i < |ops| ==> Numbered(first + i, ops[i]) in s.mem
  {
    hide Inv, GroupOk, Joined, MemOf;
    var ops, at := g.members[k].batch.value.ops, |Joined(g.members[..k])|;
    BatchHasItsRange(g.members, k);
    WholeGroup(g);
    MemIs(s);
    assert g in s.groups + Current(s);
    forall i | 0 <= i < |ops|
      ensures Numbered(first + i, ops[i]) in s.mem
    {
      assert g.ops[at..at + |ops|][i] == g.ops[at + i];
      InsertedIsInMem(s.groups + Current(s), g, at + i);
    }
  }

  lemma WholeGroup(g: Group)
    requires GroupOk(g) && Settled(g) && g.ok
    ensures g.inserted == |g.ops| && g.ops == Joined(g.members)
  {
  }

  lemma MemIs(s: System)
    requires Inv(s)
    ensures s.mem == MemOf(s.groups + Current(s))
  {
  }

  lemma RecordOnDisk(s: System, j: nat)
    requires Inv(s) && j < |s.groups| && s.groups[j].synced
    ensures exists n :: 0 <= n < s.syncedRecords <= |s.log| && s.log[n] == (s.groups[j].first, s.groups[j].ops)
  {
    var all, g := s.groups + Current(s), s.groups[j];
    assert all[j] == g && GroupOk(g);
    assert all[..j + 1][..j] == all[..j];
    LogPrefix(all, j + 1);
    var n := |LogOf(all[..j])|;
    assert LogOf(all[..j + 1])[n] == (g.first, g.ops);
    assert s.log[n] == (g.first, g.ops);
  }

  lemma {:induction false} LogPrefix(groups: seq<Group>, i: nat)
    requires i <= |groups|
    ensures LogOf(groups[..i]) <= LogOf(groups)
    decreases |groups|
  {
    if i == |groups| {
      assert groups[..i] == groups;
    } else {
      LogPrefix(groups[..|groups| - 1], i);
      assert groups[..|groups| - 1][..i] == groups[..i];
    }
  }

  lemma FrontRange(s: System)
    requires WorkOk(s) && s.Front().Working?
    ensures s.Front().group.first == s.lastSequence + 1 && GroupOk(s.Front().group)
  {
  }

  /** In every reachable state the memtable holds its entries in the order of their numbers, without repetition. */
  lemma MemIsInOrder(s: System, steps: seq<Step>)
    requires IsNew(s) && IsRun(s, steps)
    ensures var end := EndOf(s, steps);
            MemIncreases(end.mem, end.lastSequence + if end.Front().Working? then |end.Front().group.ops| else 0)
  {
    hide WritersOk, GroupOk, Settled, Durable, Accounted, IsRun, System.Front;
    ReachableIsInOrder(s, steps);
    var end := EndOf(s, steps);
    var groups := end.groups + Current(end);
    if end.Front().Working? {
      FrontRange(end);
      var g := end.Front().group;
      assert groups[|groups| - 1] == g && groups[..|groups| - 1] == end.groups;
      MemIsIncreasing(groups, end.lastSequence + |g.ops|);
    } else {
      assert groups == end.groups;
      MemIsIncreasing(groups, end.lastSequence);
    }
  }

  /** Only the group being written when an error comes up in the background may still be logged and succeed. */
  lemma {:induction false} ErrorsStopTheRest(s: System, steps: seq<Step>)
    requires Inv(s) && s.backgroundError && s.Front().Working? && IsRun(s, steps)
    ensures var end, g := EndOf(s, steps), s.Front().group;
            && g.inserted <= |g.ops|
            && (end.log == s.log || (s.Front().stage == ToLog && end.log == s.log + [(g.first, g.ops)]))
            && s.mem <= end.mem && |end.mem| <= |s.mem| + |g.ops| - g.inserted
            && s.completed <= end.completed
            && forall i :: |s.completed| <= i < |end.completed| && end.completed[i].1 ==>
                 end.completed[i].0 in g.members
    decreases |steps|
  {
    hide Inv, UpTo, Allowed, Apply, System.Front;
    WorkingRange(s);
    if steps != [] {
      var t := Apply(s, steps[0]);
      StepKeepsInv(s, steps[0]);
      ErrorStaysOn(s, steps[0]);
      if t.Front().Working? {
        ErrorsStopTheRest(t, steps[1..]);
      } else {
        ErrorsArePermanent(t, steps[1..]);
      }
    }
  }

  lemma WorkingRange(s: System)
    requires Inv(s) && s.Front().Working?
    ensures s.Front().group.inserted <= |s.Front().group.ops|
  {
  }

  lemma FinishKeepsLog(s: System, w: Writer)
    requires Allowed(s, Finish(w))
    ensures var t := Apply(s, Finish(w)); t.log == s.log && t.mem == s.mem && t.backgroundError == s.backgroundError
  {
  }

  /** A step after the error, while a group is being written. */
  lemma ErrorStaysOn(s: System, step: Step)
    requires Inv(s) && s.backgroundError && s.Front().Working? && Allowed(s, step)
    ensures var t, g := Apply(s, step), s.Front().group;
            && t.backgroundError && s.mem <= t.mem && s.completed <= t.completed
            && (t.Front().Working? ==>
                  && t.completed == s.completed && t.Front().group.members == g.members
                  && t.Front().group.ops == g.ops && t.Front().group.first == g.first
                  && |t.mem| - t.Front().group.inserted == |s.mem| - g.inserted
                  && (s.Front().stage != ToLog ==> t.Front().stage != ToLog && t.log == s.log)
                  && (s.Front().stage == ToLog && t.Front().stage != ToLog ==>
                        t.log == s.log || t.log == s.log + [(g.first, g.ops)])
                  && (t.Front().stage == ToLog ==> t.log == s.log))
            && (!t.Front().Working? ==>
                  && t.log == s.log && t.mem == s.mem
                  && forall i :: |s.completed| <= i < |t.completed| ==> t.completed[i].0 in g.members)
  {
    hide Inv, Complete, UpTo, IsGroup, Joined;
    match step
    case Finish(w) => GroupIsAtFront(s, w); FinishKeepsWriters(s, w); FinishKeepsLog(s, w);
    case AddRecord(w, _) => OnlyTheFrontWorks(s, w);
    case SyncLog(w, _) => OnlyTheFrontWorks(s, w);
    case InsertOne(w) => OnlyTheFrontWorks(s, w);
    case InsertFails(w) => OnlyTheFrontWorks(s, w);
    case Leave(w, _) => OnlyTheFrontWorks(s, w);
    case StartGroup(w, _) => OnlyTheFrontWorks(s, w);
    case _ => hide System.Front; WaitingKeepsFront(s, step);
  }

  /** After an error in the background, such as a failed sync, no further write reaches the log or succeeds. */
  lemma {:induction false} ErrorsArePermanent(s: System, steps: seq<Step>)
    requires Inv(s) && s.backgroundError && !s.Front().Working? && IsRun(s, steps)
    ensures var end := EndOf(s, steps);
            && end.log == s.log && end.mem == s.mem && s.completed <= end.completed
            && forall i :: |s.completed| <= i < |end.completed| ==> !end.completed[i].1
    decreases |steps|
  {
    hide Inv, Allowed, Apply, System.Front;
    if steps != [] {
      StepKeepsInv(s, steps[0]);
      NothingAfterError(s, steps[0]);
      ErrorsArePermanent(Apply(s, steps[0]), steps[1..]);
    }
  }

  lemma NothingAfterError(s: System, step: Step)
    requires Inv(s) && s.backgroundError && !s.Front().Working? && Allowed(s, step)
    ensures var t := Apply(s, step);
            && t.backgroundError && !t.Front().Working? && t.log == s.log && t.mem == s.mem
            && s.completed <= t.completed
            && forall i :: |s.completed| <= i < |t.completed| ==> !t.completed[i].1
  {
    hide Inv, Complete, IsGroup, Joined, System.Front;
    match step
    case Leave(w, ok) => LeaveKeepsWork(s, w, ok);
    case Finish(w) => OnlyTheFrontWorks(s, w);
    case AddRecord(w, _) => OnlyTheFrontWorks(s, w);
    case SyncLog(w, _) => OnlyTheFrontWorks(s, w);
    case InsertOne(w) => OnlyTheFrontWorks(s, w);
    case InsertFails(w) => OnlyTheFrontWorks(s, w);
    case _ => WaitingKeepsFront(s, step);
  }
}
