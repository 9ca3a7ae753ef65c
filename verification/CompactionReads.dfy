/**
 * Which reads a compaction preserves (db/db_impl.cc, DoCompactionWork and InstallCompactionResults).
 *
 * SetupOtherInputs extends the inputs of the compacted level by boundary files, but not those of the next level.
 * A deletion in the last next-level input may therefore be dropped while an older value of the same user key
 * stays behind in the file after it.  `Resurrects` is exactly the case where a reader notices.
 */
module CompactionReads {
  import opened Wrappers
  import opened InternalKeys
  import opened Files
  import opened Inputs
  import opened Compactions
  import opened Lookup
  import opened Rewrites
  import V = Versions

  /** What Get reports: a deleted key and an absent key look the same. */
  ghost predicate ReadsAs(all: set<Entry>, u: UserKey, s: nat, r: Option<Bytes>) {
    match r
    case None => Answers(all, u, s, NotFound) || Answers(all, u, s, Deleted)
    case Some(v) => Answers(all, u, s, Found(v))
  }

  /** Every reader at a snapshot from `oldest` on gets the same from `after` as from `before`. */
  ghost predicate ReadsPreserved(before: set<Entry>, after: set<Entry>, oldest: nat) {
    forall u, s, r :: s >= oldest && ReadsAs(before, u, s, r) ==> ReadsAs(after, u, s, r)
  }

  /** A compaction at work: `newer` are the entries of the memtables, `input` the merged entries of the inputs. */
  datatype Merge = Merge(c: Job, newer: set<Entry>, input: seq<Entry>, oldest: nat) {
    ghost function Kept(): seq<Entry> { Survivors(c.levels, c.level, input, |input|, oldest) }

    ghost function Before(): set<Entry> { newer + EntriesFrom(c.levels, 0) }

    ghost predicate Valid() {
      && IsCompaction(c) && NewerSet(newer, EntriesFrom(c.levels, 0))
      && Sorted(input) && EntrySet(input) == EntriesIn(c.Inputs())
    }
  }

  /** The files of the next level taken as inputs are neighbours. */
  lemma NextInputsAreSlice(next: seq<Table>, inputs0: seq<Table>, inputs1: seq<Table>) returns (a: nat, b: nat)
    requires TablesOk(next) && LevelSorted(next) && NextLevelInputs(next, inputs0, inputs1)
    ensures a <= b <= |next| && inputs1 == next[a..b]
  {
    var smallest, largest :| IsRange(inputs0, smallest, largest)
                             && inputs1 == Overlapping(next, Some(smallest.user), Some(largest.user));
    FirstKeysOk(next);
    a, b := OverlappingIsSlice(next, Some(smallest.user), Some(largest.user));
  }

  /** An entry of a user key of the level's inputs is never left out of the next level's inputs. */
  lemma NextLevelCatches(next: seq<Table>, inputs0: seq<Table>, inputs1: seq<Table>, f: Table, h: Table,
                         e: Entry, x: Entry)
    requires TablesOk(next) && TablesOk(inputs0) && NextLevelInputs(next, inputs0, inputs1)
    requires f in inputs0 && e in f.contents && h in next && x in h.contents && e.key.user == x.key.user
    ensures h in inputs1
  {
    var smallest, largest :| IsRange(inputs0, smallest, largest)
                             && inputs1 == Overlapping(next, Some(smallest.user), Some(largest.user));
    OverlappingMembers(next, Some(smallest.user), Some(largest.user));
    assert TableOk(f) && TableOk(h);
    WithinRange(f);
    WithinRange(h);
    assert Overlaps(h, Some(smallest.user), Some(largest.user));
  }

  /** The next-level inputs are the files `a .. b` of the next level. */
  ghost predicate IsNextSlice(c: Job, a: nat, b: nat) {
    c.level + 1 < |c.levels| && a <= b <= |c.levels[c.level + 1]| && c.inputs1 == c.levels[c.level + 1][a..b]
  }

  /** The file right behind the next-level inputs begins with an entry of the user key of the input `e`, older than
      `e`, and `x` is not newer than that entry. */
  ghost predicate Behind(c: Job, a: nat, b: nat, e: Entry, x: Entry) {
    && c.level + 1 < |c.levels| && a < b < |c.levels[c.level + 1]| && e in EntriesIn(c.inputs1)
    && var next := c.levels[c.level + 1];
       next[b].contents != [] && next[b].contents[0].key.user == e.key.user
       && x.key.seqno <= next[b].contents[0].key.seqno < e.key.seqno
  }

  lemma LeftBehind(c: Job, e: Entry, l: nat, h: Table, x: Entry, a: nat, b: nat)
    requires IsCompaction(c) && IsNextSlice(c, a, b)
    requires e in EntriesIn(c.Inputs()) && IsBaseLevel(c.levels, c.level, e.key.user)
    requires l < |c.levels| && h in c.levels[l] && h !in c.Inputs() && x in h.contents
    requires x.key.user == e.key.user && x.key.seqno <= e.key.seqno
    ensures l == c.level + 1 && Behind(c, a, b, e, x)
  {
    var f :| f in c.Inputs() && e in f.contents;
    LeftBehindNext(c, f, e, l, h, x);
    assert TablesOk(c.levels[c.level + 1]) && LevelSorted(c.levels[c.level + 1]);
    BehindTheSlice(c.levels[c.level + 1], a, b, f, h, e, x);
  }

  lemma LeftBehindNext(c: Job, f: Table, e: Entry, l: nat, h: Table, x: Entry)
    requires IsCompaction(c)
    requires f in c.Inputs() && e in f.contents && IsBaseLevel(c.levels, c.level, e.key.user)
    requires l < |c.levels| && h in c.levels[l] && h !in c.Inputs() && x in h.contents
    requires x.key.user == e.key.user && x.key.seqno <= e.key.seqno
    ensures l == c.level + 1 && f in c.inputs1
  {
    NotAbove(c, f, e, l, h, x);
    BaseLevelExcludes(c.levels, c.level, e.key.user, l, h, x);
    InputTablesOk(c);
    assert TablesOk(c.levels[c.level + 1]);
    if f in c.inputs0 {
      NextLevelCatches(c.levels[c.level + 1], c.inputs0, c.inputs1, f, h, e, x);
    }
  }

  /** Entries left in the compacted level and above are newer than the inputs. */
  lemma NotAbove(c: Job, f: Table, e: Entry, l: nat, h: Table, x: Entry)
    requires IsCompaction(c)
    requires f in c.Inputs() && e in f.contents
    requires l < |c.levels| && h in c.levels[l] && h !in c.Inputs() && x in h.contents
    requires x.key.user == e.key.user && x.key.seqno <= e.key.seqno
    ensures l > c.level
  {
    if l <= c.level {
      NewerThanInputs(c, l, h);
    }
  }

  lemma BaseLevelExcludes(levels: seq<seq<Table>>, level: nat, u: UserKey, l: nat, h: Table, x: Entry)
    requires IsBaseLevel(levels, level, u) && VersionOk(levels)
    requires l < |levels| && h in levels[l] && x in h.contents && x.key.user == u
    ensures l <= level + 1
  {
    assert TablesOk(levels[l]) && TableOk(h);
    WithinRange(h);
  }

  lemma BehindTheSlice(next: seq<Table>, a: nat, b: nat, f: Table, h: Table, e: Entry, x: Entry)
    requires TablesOk(next) && LevelSorted(next) && a <= b <= |next|
    requires f in next[a..b] && e in f.contents && h in next && h !in next[a..b] && x in h.contents
    requires x.key.user == e.key.user && x.key.seqno <= e.key.seqno
    ensures a < b < |next| && next[b].contents != [] && next[b].contents[0].key.user == e.key.user
    ensures x.key.seqno <= next[b].contents[0].key.seqno < e.key.seqno
  {
    var k :| 0 <= k < b - a && next[a..b][k] == f;
    var i :| 0 <= i < |next| && next[i] == h;
    assert next[a + k] == f;
    assert TableOk(f) && TableOk(h);
    WithinRange(f);
    WithinRange(h);
    assert i < a ==> Precedes(h.largest, f.smallest);
    var g := next[b];
    assert g in next && TableOk(g);
    WithinRange(g);
    assert Precedes(f.largest, g.smallest);
    if i > b { assert Precedes(g.largest, h.smallest); }
  }

  /** `e` is in a file the compaction leaves alone. */
  ghost predicate LeftOut(levels: seq<seq<Table>>, inputs: seq<Table>, e: Entry) {
    exists l: nat, h :: l < |levels| && h in levels[l] && h !in inputs && e in h.contents
  }

  lemma InVersion(levels: seq<seq<Table>>, e: Entry)
    ensures e in EntriesFrom(levels, 0) <==> LeftOut(levels, [], e)
  {
  }

  /** The entries of the version after the compaction: what was left out of the inputs, and the survivors. */
  lemma ContentsAfter(c: Job, outputs: seq<Table>, after: seq<seq<Table>>, e: Entry)
    requires UniqueNumbers(c.levels) && c.level + 1 < |c.levels|
    requires HasFiles(c, outputs, after)
    requires forall g :: g in c.inputs0 ==> g in c.levels[c.level]
    requires forall g :: g in c.inputs1 ==> g in c.levels[c.level + 1]
    ensures e in EntriesFrom(after, 0) <==> e in EntriesIn(outputs) || LeftOut(c.levels, c.Inputs(), e)
  {
    InVersion(after, e);
    if LeftOut(after, [], e) {
      var l: nat, f :| l < |after| && f in after[l] && f !in [] && e in f.contents;
      OldOrOutput(c, outputs, after, l, f);
      if f in c.levels[l] && f !in outputs {
        NotAnInput(c, l, f);
      }
    }
    if LeftOut(c.levels, c.Inputs(), e) {
      var l: nat, h :| l < |c.levels| && h in c.levels[l] && h !in c.Inputs() && e in h.contents;
      LeftOutStays(c, outputs, after, l, h);
    }
    if e in EntriesIn(outputs) {
      var f :| f in outputs && e in f.contents;
      assert f in after[c.level + 1];
    }
  }

  lemma LeftOutStays(c: Job, outputs: seq<Table>, after: seq<seq<Table>>, l: nat, h: Table)
    requires c.level + 1 < |c.levels| && HasFiles(c, outputs, after)
    requires l < |c.levels| && h in c.levels[l] && h !in c.inputs0 && h !in c.inputs1
    ensures h in after[l]
  {
  }

  lemma NotAnInput(c: Job, l: nat, f: Table)
    requires UniqueNumbers(c.levels) && c.level + 1 < |c.levels| && l < |c.levels| && f in c.levels[l]
    requires forall g :: g in c.inputs0 ==> g in c.levels[c.level]
    requires forall g :: g in c.inputs1 ==> g in c.levels[c.level + 1]
    requires l == c.level ==> f !in c.inputs0
    requires l == c.level + 1 ==> f !in c.inputs1
    ensures f !in c.Inputs()
  {
    if f in c.inputs0 { NumberFacts(c.levels, l, c.level, f, f); }
    if f in c.inputs1 { NumberFacts(c.levels, l, c.level + 1, f, f); }
  }

  lemma {:induction false} SurvivorsAre(levels: seq<seq<Table>>, level: nat, input: seq<Entry>, n: nat, oldest: nat,
                                        e: Entry)
    requires n <= |input|
    ensures e in Survivors(levels, level, input, n, oldest)
            <==> exists i :: 0 <= i < n && input[i] == e && !Dropped(levels, level, input, i, oldest)
  {
    if n > 0 {
      SurvivorsAre(levels, level, input, n - 1, oldest, e);
    }
  }

  /** No newer entry of the user key is visible to the oldest snapshot. */
  ghost predicate IsNewestBelow(input: seq<Entry>, e: Entry, oldest: nat) {
    forall n :: n in input && n.key.user == e.key.user && n.key.seqno > e.key.seqno ==> n.key.seqno > oldest
  }

  /**
   * What a compaction keeps: of each user key the entries above the oldest snapshot and the newest of the others, but not
   * a deletion that nothing in a deeper level is left to hide from.
   */
  lemma KeptExactly(levels: seq<seq<Table>>, level: nat, input: seq<Entry>, oldest: nat)
    requires Sorted(input)
    ensures var kept := Survivors(levels, level, input, |input|, oldest);
            && (forall e :: e in kept <==> e in input && !Obsolete(levels, level, e, oldest) && IsNewestBelow(input, e, oldest))
            && (forall e :: e in kept && e.key.kind == Deletion && e.key.seqno <= oldest ==>
                  !IsBaseLevel(levels, level, e.key.user))
            && forall x, y :: x in kept && y in kept && x.key.user == y.key.user && x != y ==>
                 x.key.seqno > oldest || y.key.seqno > oldest
  {
    hide IsBaseLevel, Survivors;
    var kept := Survivors(levels, level, input, |input|, oldest);
    forall e
      ensures e in kept <==> e in input && !Obsolete(levels, level, e, oldest) && IsNewestBelow(input, e, oldest)
    {
      SurvivorsAre(levels, level, input, |input|, oldest, e);
      if e in input {
        var i :| 0 <= i < |input| && input[i] == e;
        HiddenByNewer(input, i, oldest);
        OnePlace(input, i);
      }
    }
    forall x, y | x in kept && y in kept && x.key.user == y.key.user && x != y
      ensures x.key.seqno > oldest || y.key.seqno > oldest
    {
      var i :| 0 <= i < |input| && input[i] == x;
      var j :| 0 <= j < |input| && input[j] == y;
      assert Precedes(x.key, y.key) || Precedes(y.key, x.key);
    }
  }

  lemma OnePlace(input: seq<Entry>, i: nat)
    requires Sorted(input) && i < |input|
    ensures forall j :: 0 <= j < |input| && input[j] == input[i] ==> j == i
  {
  }

  lemma HiddenByNewer(input: seq<Entry>, i: nat, oldest: nat)
    requires Sorted(input) && i < |input|
    ensures Hidden(input, i, oldest) <==> !IsNewestBelow(input, input[i], oldest)
  {
    var e := input[i];
    if !IsNewestBelow(input, e, oldest) {
      var n :| n in input && n.key.user == e.key.user && n.key.seqno > e.key.seqno && n.key.seqno <= oldest;
      var j :| 0 <= j < |input| && input[j] == n;
      assert j > i ==> Precedes(input[i].key, input[j].key);
    }
    if Hidden(input, i, oldest) {
      var j :| 0 <= j < i && input[j].key.user == e.key.user && input[j].key.seqno <= oldest;
      assert Precedes(input[j].key, input[i].key) && input[j] in input;
    }
  }

  /** An obsolete deletion takes every older entry of its user key among the inputs with it. */
  lemma NothingSurvivesBelow(m: Merge, e: Entry, x: Entry)
    requires Sorted(m.input) && e in m.input && Obsolete(m.c.levels, m.c.level, e, m.oldest)
    requires x.key.user == e.key.user && x.key.seqno <= e.key.seqno
    ensures x !in m.Kept()
  {
    SurvivorsAre(m.c.levels, m.c.level, m.input, |m.input|, m.oldest, x);
    var i :| 0 <= i < |m.input| && m.input[i] == e;
    forall j | 0 <= j < |m.input| && m.input[j] == x
      ensures Dropped(m.c.levels, m.c.level, m.input, j, m.oldest)
    {
      assert j < i ==> Precedes(m.input[j].key, m.input[i].key);
      if j > i { assert Hidden(m.input, j, m.oldest); }
    }
  }

  /** A reader's newest visible entry is dropped only as an obsolete deletion. */
  lemma NewestIsDroppedAsDeletion(m: Merge, u: UserKey, s: nat, e: Entry)
    requires Sorted(m.input) && s >= m.oldest && IsNewest(m.Before(), u, s, e) && EntrySet(m.input) <= m.Before()
    requires e in m.input && e !in m.Kept()
    ensures Obsolete(m.c.levels, m.c.level, e, m.oldest)
  {
    SurvivorsAre(m.c.levels, m.c.level, m.input, |m.input|, m.oldest, e);
    var i :| 0 <= i < |m.input| && m.input[i] == e;
    forall j | 0 <= j < i
      ensures m.input[j] in m.Before() && Precedes(m.input[j].key, m.input[i].key)
    {
      assert m.input[j] in EntrySet(m.input);
    }
    assert Dropped(m.c.levels, m.c.level, m.input, i, m.oldest) && !Hidden(m.input, i, m.oldest);
  }

  lemma WitnessOf(levels: seq<seq<Table>>, inputs: seq<Table>, x: Entry) returns (l: nat, h: Table)
    requires LeftOut(levels, inputs, x)
    ensures l < |levels| && h in levels[l] && h !in inputs && x in h.contents
  {
    l, h :| l < |levels| && h in levels[l] && h !in inputs && x in h.contents;
  }

  lemma LeftOutInVersion(levels: seq<seq<Table>>, inputs: seq<Table>, x: Entry)
    requires LeftOut(levels, inputs, x)
    ensures x in EntriesFrom(levels, 0)
  {
    var l, h := WitnessOf(levels, inputs, x);
  }

  lemma InputsInVersion(c: Job)
    requires IsCompaction(c)
    ensures EntriesIn(c.Inputs()) <= EntriesFrom(c.levels, 0)
  {
    InputsAreFiles(c);
    forall e | e in EntriesIn(c.Inputs())
      ensures e in EntriesFrom(c.levels, 0)
    {
      var f :| f in c.Inputs() && e in f.contents;
      assert f in c.levels[c.level] || f in c.levels[c.level + 1];
    }
  }

  /** `kept` is what the database holds after the merge. */
  ghost predicate IsResult(m: Merge, kept: set<Entry>) {
    forall e :: e in kept <==> e in m.newer || LeftOut(m.c.levels, m.c.Inputs(), e) || e in m.Kept()
  }

  lemma ResultOf(m: Merge, outputs: seq<Table>)
    requires m.Valid() && OutputsOk(m.c, outputs) && EntriesIn(outputs) == EntrySet(m.Kept())
    ensures IsResult(m, m.newer + EntriesFrom(Rewritten(m.c, outputs), 0))
  {
    hide UniqueNumbers, LevelsOrdered, HasFiles, OutputsOk, ChosenInputs, NextLevelInputs, Rewritten, LeftOut;
    var after := Rewritten(m.c, outputs);
    RewriteKeepsVersion(m.c, outputs);
    InputsAreFiles(m.c);
    forall e
      ensures e in EntriesFrom(after, 0) <==> LeftOut(m.c.levels, m.c.Inputs(), e) || e in m.Kept()
    {
      ContentsAfter(m.c, outputs, after, e);
      assert e in EntriesIn(outputs) <==> e in EntrySet(m.Kept());
    }
  }

  lemma KeptWasThere(m: Merge, kept: set<Entry>, x: Entry)
    requires m.Valid() && IsResult(m, kept) && x in kept
    ensures x in m.Before()
  {
    if x in m.Kept() {
      SurvivorsAre(m.c.levels, m.c.level, m.input, |m.input|, m.oldest, x);
      assert x in EntrySet(m.input);
      InputsInVersion(m.c);
    } else if LeftOut(m.c.levels, m.c.Inputs(), x) {
      LeftOutInVersion(m.c.levels, m.c.Inputs(), x);
    }
  }

  lemma GoneIsInput(m: Merge, kept: set<Entry>, e: Entry)
    requires m.Valid() && IsResult(m, kept) && e in m.Before() && e !in kept
    ensures e in m.input && e !in m.Kept()
  {
    InVersion(m.c.levels, e);
    var l, h := WitnessOf(m.c.levels, [], e);
    assert h in m.c.Inputs();
    assert e in EntriesIn(m.c.Inputs());
    assert e in EntrySet(m.input);
  }

  /** The newest entry of `u` for a reader at `s` is an input the merge drops as an obsolete deletion. */
  ghost predicate DropsNewest(m: Merge, u: UserKey, s: nat, e: Entry) {
    && m.Valid() && s >= m.oldest && IsNewest(m.Before(), u, s, e)
    && e in m.input && Obsolete(m.c.levels, m.c.level, e, m.oldest)
  }

  lemma SeenIsLeftOut(m: Merge, kept: set<Entry>, u: UserKey, s: nat, e: Entry, x: Entry)
    requires DropsNewest(m, u, s, e) && IsResult(m, kept) && x in kept && Visible(x, u, s)
    ensures LeftOut(m.c.levels, m.c.Inputs(), x) && x.key.seqno <= e.key.seqno
  {
    assert e in EntrySet(m.input);
    InputsInVersion(m.c);
    KeptWasThere(m, kept, x);
    NothingSurvivesBelow(m, e, x);
  }

  /** Once the newest visible entry is dropped as a deletion, a reader can only see what lies behind the inputs. */
  lemma BehindDeletion(m: Merge, kept: set<Entry>, u: UserKey, s: nat, e: Entry, x: Entry, a: nat, b: nat)
    requires DropsNewest(m, u, s, e) && IsResult(m, kept) && x in kept && Visible(x, u, s)
    requires IsNextSlice(m.c, a, b)
    ensures Behind(m.c, a, b, e, x)
  {
    SeenIsLeftOut(m, kept, u, s, e, x);
    var l, h := WitnessOf(m.c.levels, m.c.Inputs(), x);
    assert e in EntrySet(m.input);
    LeftBehind(m.c, e, l, h, x, a, b);
  }

  lemma BoundaryIsLeftOut(c: Job, a: nat, b: nat)
    requires IsCompaction(c) && IsNextSlice(c, a, b) && b < |c.levels[c.level + 1]|
    ensures c.levels[c.level + 1][b] !in c.Inputs()
  {
    var next := c.levels[c.level + 1];
    InputsAreFiles(c);
    assert next[b] in next;
    assert next[b] !in c.inputs1 by {
      assert V.StrictlyOrdered(c.levels[c.level + 1]);
    }
    if next[b] in c.levels[c.level] {
      NumberFacts(c.levels, c.level, c.level + 1, next[b], next[b]);
    }
  }

  /** Behind a dropped deletion, a reader sees the first entry of the file after the inputs. */
  lemma SeesBoundary(m: Merge, kept: set<Entry>, u: UserKey, s: nat, e: Entry, a: nat, b: nat)
    requires DropsNewest(m, u, s, e) && IsResult(m, kept) && IsNextSlice(m.c, a, b)
    requires b < |m.c.levels[m.c.level + 1]| && m.c.levels[m.c.level + 1][b].contents != []
    requires Behind(m.c, a, b, e, m.c.levels[m.c.level + 1][b].contents[0])
    ensures IsNewest(kept, u, s, m.c.levels[m.c.level + 1][b].contents[0])
  {
    BoundaryIsLeftOut(m.c, a, b);
    var g := m.c.levels[m.c.level + 1][b];
    var r := g.contents[0];
    assert g in m.c.levels[m.c.level + 1] && r in g.contents;
    assert LeftOut(m.c.levels, m.c.Inputs(), r);
    forall x | x in kept && Visible(x, u, s)
      ensures x.key.seqno <= r.key.seqno
    {
      BehindDeletion(m, kept, u, s, e, x, a, b);
    }
  }

  /**
   * The next-level file at `b` follows the next-level inputs and starts with a value of the user key of the input
   * `e`, a deletion that is dropped although it is the newest entry the oldest snapshot sees.
   */
  ghost predicate BoundaryDeletion(m: Merge, b: nat, e: Entry) {
    && m.c.level + 1 < |m.c.levels| && 0 < b < |m.c.levels[m.c.level + 1]|
    && var next := m.c.levels[m.c.level + 1];
       && next[b - 1] in m.c.inputs1 && next[b] !in m.c.inputs1
       && next[b].contents != [] && next[b].contents[0].key.kind == Value
       && e.key.user == next[b].contents[0].key.user && next[b].contents[0].key.seqno < e.key.seqno
       && e in EntriesIn(m.c.inputs1) && Obsolete(m.c.levels, m.c.level, e, m.oldest)
       && IsNewest(m.Before(), e.key.user, m.oldest, e)
  }

  ghost predicate Resurrects(m: Merge) {
    exists b, e :: BoundaryDeletion(m, b, e)
  }

  lemma NewestEarlier(all: set<Entry>, u: UserKey, s: nat, t: nat, e: Entry)
    requires IsNewest(all, u, s, e) && e.key.seqno <= t <= s
    ensures IsNewest(all, u, t, e)
  {
  }

  lemma BoundaryIsNoValue(m: Merge, u: UserKey, s: nat, e: Entry, x: Entry, a: nat, b: nat)
    requires DropsNewest(m, u, s, e) && IsNextSlice(m.c, a, b) && Behind(m.c, a, b, e, x) && !Resurrects(m)
    ensures m.c.levels[m.c.level + 1][b].contents[0].key.kind == Deletion
  {
    hide Obsolete, IsNewest, Merge.Valid, Merge.Before, DropsNewest, BoundaryDeletion;
    if m.c.levels[m.c.level + 1][b].contents[0].key.kind == Value {
      IsBoundary(m, u, s, e, x, a, b);
      assert false;
    }
  }

  lemma IsBoundary(m: Merge, u: UserKey, s: nat, e: Entry, x: Entry, a: nat, b: nat)
    requires DropsNewest(m, u, s, e) && IsNextSlice(m.c, a, b) && Behind(m.c, a, b, e, x)
    requires m.c.levels[m.c.level + 1][b].contents[0].key.kind == Value
    ensures BoundaryDeletion(m, b, e)
  {
    hide DropsNewest, IsNewest, Obsolete, IsCompaction, Merge.Before, EntriesIn;
    NewestAtOldest(m, u, s, e);
    NotAnInput1(m.c, a, b);
    assert m.c.levels[m.c.level + 1][b - 1] == m.c.inputs1[b - 1 - a];
  }

  lemma NewestAtOldest(m: Merge, u: UserKey, s: nat, e: Entry)
    requires DropsNewest(m, u, s, e)
    ensures IsCompaction(m.c) && e.key.user == u && Obsolete(m.c.levels, m.c.level, e, m.oldest)
    ensures IsNewest(m.Before(), u, m.oldest, e)
  {
    hide Merge.Before, IsCompaction;
    NewestEarlier(m.Before(), u, s, m.oldest, e);
  }

  lemma NotAnInput1(c: Job, a: nat, b: nat)
    requires IsCompaction(c) && IsNextSlice(c, a, b) && b < |c.levels[c.level + 1]|
    ensures c.levels[c.level + 1][b] !in c.inputs1
  {
    BoundaryIsLeftOut(c, a, b);
  }

  /** A dropped deletion that no reader can notice: the key still reads as absent. */
  lemma StillAbsent(m: Merge, kept: set<Entry>, u: UserKey, s: nat, e: Entry)
    requires DropsNewest(m, u, s, e) && IsResult(m, kept) && !Resurrects(m)
    ensures ReadsAs(kept, u, s, None)
  {
    if !NoneVisible(kept, u, s) {
      var x :| x in kept && Visible(x, u, s);
      var a, b := NextSlice(m.c);
      BehindDeletion(m, kept, u, s, e, x, a, b);
      BoundaryIsNoValue(m, u, s, e, x, a, b);
      SeesBoundary(m, kept, u, s, e, a, b);
      DeletionReadsAsAbsent(kept, u, s, m.c.levels[m.c.level + 1][b].contents[0]);
    }
  }

  lemma DeletionReadsAsAbsent(all: set<Entry>, u: UserKey, s: nat, d: Entry)
    requires IsNewest(all, u, s, d) && d.key.kind == Deletion
    ensures ReadsAs(all, u, s, None)
  {
  }

  lemma NextSlice(c: Job) returns (a: nat, b: nat)
    requires IsCompaction(c)
    ensures IsNextSlice(c, a, b)
  {
    a, b := NextInputsAreSlice(c.levels[c.level + 1], c.inputs0, c.inputs1);
  }

  lemma ReadIsPreserved(m: Merge, kept: set<Entry>, u: UserKey, s: nat, r: Option<Bytes>)
    requires m.Valid() && IsResult(m, kept) && !Resurrects(m)
    requires s >= m.oldest && ReadsAs(m.Before(), u, s, r)
    ensures ReadsAs(kept, u, s, r)
  {
    forall x | x in kept
      ensures x in m.Before()
    {
      KeptWasThere(m, kept, x);
    }
    if !NoneVisible(m.Before(), u, s) {
      var e :| IsNewest(m.Before(), u, s, e)
               && if r.Some? then e.key.kind == Value && e.value == r.value else e.key.kind == Deletion;
      if e in kept {
        assert IsNewest(kept, u, s, e);
      } else {
        GoneIsInput(m, kept, e);
        InputsInVersion(m.c);
        NewestIsDroppedAsDeletion(m, u, s, e);
        StillAbsent(m, kept, u, s, e);
      }
    }
  }

  /** In an ordered version an entry is determined by its user key and sequence number. */
  lemma EntriesAreUnique(levels: seq<seq<Table>>, x: Entry, y: Entry)
    requires VersionOk(levels) && x in EntriesFrom(levels, 0) && y in EntriesFrom(levels, 0)
    requires x.key.user == y.key.user && x.key.seqno == y.key.seqno
    ensures x == y
  {
    InVersion(levels, x);
    InVersion(levels, y);
    var l, f := WitnessOf(levels, [], x);
    var k, g := WitnessOf(levels, [], y);
    SameSource(levels, l, f, x, k, g, y);
    assert TablesOk(levels[l]) && TableOk(f);
  }

  lemma SameSource(levels: seq<seq<Table>>, l: nat, f: Table, x: Entry, k: nat, g: Table, y: Entry)
    requires VersionOk(levels) && l < |levels| && f in levels[l] && x in f.contents
    requires k < |levels| && g in levels[k] && y in g.contents
    requires x.key.user == y.key.user && x.key.seqno == y.key.seqno
    ensures f == g
  {
    if l < k { AgeFacts(levels, l, k, f, g); }
    if k < l { AgeFacts(levels, k, l, g, f); }
    FileFacts(levels, l, f);
    FileFacts(levels, k, g);
    assert l > 0 ==> LevelSorted(levels[l]);
    WithinRange(f);
    WithinRange(g);
    if l > 0 && f != g {
      LevelApart(levels[l], f, g);
    }
  }

  /** In that case the reader at the oldest snapshot does notice: the deleted key comes back. */
  lemma DeletedKeyComesBack(m: Merge, kept: set<Entry>, b: nat, e: Entry)
    requires m.Valid() && IsResult(m, kept) && BoundaryDeletion(m, b, e)
    ensures ReadsAs(m.Before(), e.key.user, m.oldest, None)
    ensures IsNewest(kept, e.key.user, m.oldest, m.c.levels[m.c.level + 1][b].contents[0])
  {
    var a, end := NextSlice(m.c);
    SliceEndsAt(m.c, a, end, b);
    InputOfNext(m, e);
    assert Behind(m.c, a, b, e, m.c.levels[m.c.level + 1][b].contents[0]);
    SeesBoundary(m, kept, e.key.user, m.oldest, e, a, b);
    DeletionReadsAsAbsent(m.Before(), e.key.user, m.oldest, e);
  }

  lemma InputOfNext(m: Merge, e: Entry)
    requires m.Valid() && e in EntriesIn(m.c.inputs1)
    ensures e in m.input
  {
    var f :| f in m.c.inputs1 && e in f.contents;
    assert f in m.c.Inputs();
    assert e in EntriesIn(m.c.Inputs());
    assert e in EntrySet(m.input);
  }

  lemma SliceEndsAt(c: Job, a: nat, end: nat, b: nat)
    requires IsCompaction(c) && IsNextSlice(c, a, end)
    requires 0 < b < |c.levels[c.level + 1]|
    requires c.levels[c.level + 1][b - 1] in c.inputs1 && c.levels[c.level + 1][b] !in c.inputs1
    ensures end == b && a < b
  {
    var next := c.levels[c.level + 1];
    assert V.StrictlyOrdered(c.levels[c.level + 1]);
    var k :| 0 <= k < end - a && next[a..end][k] == next[b - 1];
    assert next[a + k] == next[b - 1];
    assert a + k == b - 1;
  }

  /** With unique entries a key that reads as a value does not also read as absent. */
  lemma ReadsAreUnique(all: set<Entry>, u: UserKey, s: nat, r: Entry)
    requires IsNewest(all, u, s, r) && r.key.kind == Value
    requires forall x :: x in all && x.key.user == r.key.user && x.key.seqno == r.key.seqno ==> x == r
    ensures !ReadsAs(all, u, s, None)
  {
    forall d | IsNewest(all, u, s, d)
      ensures d == r
    {
    }
  }

  /**
   * A compaction preserves every read at every snapshot from the oldest one on if and only if no deletion at the
   * end of its next-level inputs uncovers a value at the start of the file after them.
   */
  lemma CompactionPreservesReads(m: Merge, outputs: seq<Table>)
    requires m.Valid() && OutputsOk(m.c, outputs) && EntriesIn(outputs) == EntrySet(m.Kept())
    ensures ReadsPreserved(m.Before(), m.newer + EntriesFrom(Rewritten(m.c, outputs), 0), m.oldest) <==> !Resurrects(m)
  {
    var kept := m.newer + EntriesFrom(Rewritten(m.c, outputs), 0);
    ResultOf(m, outputs);
    if Resurrects(m) {
      var b, e :| BoundaryDeletion(m, b, e);
      ComesBackNoticed(m, outputs, b, e);
    } else {
      forall u, s, r | s >= m.oldest && ReadsAs(m.Before(), u, s, r)
        ensures ReadsAs(kept, u, s, r)
      {
        ReadIsPreserved(m, kept, u, s, r);
      }
    }
  }

  lemma ComesBackNoticed(m: Merge, outputs: seq<Table>, b: nat, e: Entry)
    requires m.Valid() && OutputsOk(m.c, outputs) && EntriesIn(outputs) == EntrySet(m.Kept())
    requires BoundaryDeletion(m, b, e)
    ensures ReadsAs(m.Before(), e.key.user, m.oldest, None)
    ensures !ReadsAs(m.newer + EntriesFrom(Rewritten(m.c, outputs), 0), e.key.user, m.oldest, None)
  {
    var after := Rewritten(m.c, outputs);
    var kept := m.newer + EntriesFrom(after, 0);
    ResultOf(m, outputs);
    DeletedKeyComesBack(m, kept, b, e);
    var g := m.c.levels[m.c.level + 1][b];
    assert g in m.c.levels[m.c.level + 1] && g.contents[0] in g.contents;
    RewriteKeepsVersion(m.c, outputs);
    UniqueAfter(m, after, g.contents[0], e);
    ReadsAreUnique(kept, e.key.user, m.oldest, g.contents[0]);
  }

  lemma UniqueAfter(m: Merge, after: seq<seq<Table>>, r: Entry, e: Entry)
    requires VersionOk(after) && NewerSet(m.newer, EntriesFrom(m.c.levels, 0))
    requires r in m.newer + EntriesFrom(after, 0)
    requires r in EntriesFrom(m.c.levels, 0)
    ensures forall x ::
      x in m.newer + EntriesFrom(after, 0) && x.key.user == r.key.user && x.key.seqno == r.key.seqno ==> x == r
  {
    forall x | x in m.newer + EntriesFrom(after, 0) && x.key.user == r.key.user && x.key.seqno == r.key.seqno
      ensures x == r
    {
      EntriesAreUnique(after, x, r);
    }
  }
}
