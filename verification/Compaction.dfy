/** The merge of a compaction (db/db_impl.cc, DoCompactionWork; db/version_set.cc, IsBaseLevelForKey). */
module Compactions {
  import opened Wrappers
  import opened InternalKeys
  import opened Files
  import opened Sequences

  type Table = File<seq<Entry>>

  const NUM_LEVELS := 7

  /** No file below the output level has a range containing `u`. */
  ghost predicate IsBaseLevel(levels: seq<seq<Table>>, level: nat, u: UserKey) {
    forall lvl, f :: level + 2 <= lvl < |levels| && f in levels[lvl] ==> !(f.smallest.user <= u <= f.largest.user)
  }

  /** A newer entry of the same user key is itself visible to the oldest snapshot. */
  ghost predicate Hidden(input: seq<Entry>, i: nat, oldest: nat)
    requires i < |input|
  {
    exists j :: 0 <= j < i && input[j].key.user == input[i].key.user && input[j].key.seqno <= oldest
  }

  /** A deletion no snapshot can tell from the absence of the key. */
  ghost predicate Obsolete(levels: seq<seq<Table>>, level: nat, e: Entry, oldest: nat) {
    e.key.kind == Deletion && e.key.seqno <= oldest && IsBaseLevel(levels, level, e.key.user)
  }

  ghost predicate Dropped(levels: seq<seq<Table>>, level: nat, input: seq<Entry>, i: nat, oldest: nat)
    requires i < |input|
  {
    Hidden(input, i, oldest) || Obsolete(levels, level, input[i], oldest)
  }

  ghost function Survivors(levels: seq<seq<Table>>, level: nat, input: seq<Entry>, n: nat, oldest: nat): seq<Entry>
    requires n <= |input|
  {
    if n == 0 then []
    else
      Survivors(levels, level, input, n - 1, oldest)
      + if Dropped(levels, level, input, n - 1, oldest) then [] else [input[n - 1]]
  }

  class Compaction {
    const level: nat
    const version: seq<seq<Table>>  // the levels of the input version
    var levelPtrs: seq<nat>         // per level, the first file IsBaseLevelForKey has not passed

    constructor (level: nat, version: seq<seq<Table>>)
      requires |version| == NUM_LEVELS
      requires forall lvl :: 1 <= lvl < |version| ==> RangesOk(version[lvl]) && LevelSorted(version[lvl])
      ensures this.level == level && this.version == version && Valid()
      ensures forall u :: Passed(u)
    {
      this.level, this.version := level, version;
      levelPtrs := seq(NUM_LEVELS, _ => 0);
    }

    ghost predicate Valid()
      reads this
    {
      && |version| == NUM_LEVELS && |levelPtrs| == NUM_LEVELS
      && (forall lvl :: 1 <= lvl < |version| ==> RangesOk(version[lvl]) && LevelSorted(version[lvl]))
      && (forall lvl :: 0 <= lvl < NUM_LEVELS ==> levelPtrs[lvl] <= |version[lvl]|)
    }

    /** The files already passed end before `u`. */
    ghost predicate Passed(u: UserKey)
      requires Valid()
      reads this
    {
      forall lvl, k :: level + 2 <= lvl < NUM_LEVELS && 0 <= k < levelPtrs[lvl] ==> version[lvl][k].largest.user < u
    }

    /** Must be asked for user keys in increasing order. */
    method IsBaseLevelForKey(u: UserKey) returns (base: bool)
      requires Valid() && Passed(u)
      modifies this`levelPtrs
      ensures Valid() && Passed(u)
      ensures base <==> IsBaseLevel(version, level, u)
    {
      var lvl := level + 2;
      while lvl < NUM_LEVELS
        invariant lvl >= level + 2
        invariant Valid() && Passed(u)
        invariant forall l, f :: level + 2 <= l < lvl && l < NUM_LEVELS && f in version[l]
                                 ==> !(f.smallest.user <= u <= f.largest.user)
      {
        var files := version[lvl];
        EndsIncrease(files);
        while levelPtrs[lvl] < |files|
          invariant Valid() && Passed(u)
          decreases |files| - levelPtrs[lvl]
        {
          var f := files[levelPtrs[lvl]];
          if u <= f.largest.user {
            if u >= f.smallest.user {
              assert f in version[lvl];
              return false;
            }
            break;
          }
          levelPtrs := levelPtrs[lvl := levelPtrs[lvl] + 1];
        }
        forall f | f in version[lvl]
          ensures !(f.smallest.user <= u <= f.largest.user)
        {
          var k :| 0 <= k < |files| && files[k] == f;
          if k >= levelPtrs[lvl] {
            assert !Before(files[k].smallest, files[levelPtrs[lvl]].smallest);
          }
        }
        lvl := lvl + 1;
      }
      base := true;
    }

    /**
     * Whether the entry at `i` is dropped.  `lastSequence` is the sequence number of the entry before it if that has
     * the same user key, and the maximum otherwise.
     */
    method ShouldDrop(input: seq<Entry>, i: nat, lastSequence: nat, oldest: nat) returns (drop: bool)
      requires Valid() && i < |input| && Passed(input[i].key.user)
      requires Sorted(input) && oldest < MAX_SEQUENCE
      requires lastSequence == if i > 0 && input[i - 1].key.user == input[i].key.user then input[i - 1].key.seqno
                               else MAX_SEQUENCE
      modifies this`levelPtrs
      ensures Valid() && Passed(input[i].key.user)
      ensures drop <==> Dropped(version, level, input, i, oldest)
    {
      var key := input[i].key;
      drop := false;
      if lastSequence <= oldest {
        drop := true;
      } else if key.kind == Deletion && key.seqno <= oldest {
        drop := IsBaseLevelForKey(key.user);
      }
    }

    /**
     * The merge loop over the sorted input.  When to start a new output file is a heuristic: `stopBefore` and
     * `full` stand for any choice of ShouldStopBefore and of the file size limit.
     */
    method DoCompactionWork(input: seq<Entry>, oldest: nat, stopBefore: nat -> bool, full: nat -> bool)
      returns (outputs: seq<seq<Entry>>)
      requires Valid() && forall u :: Passed(u)
      requires Sorted(input) && oldest < MAX_SEQUENCE
      modifies this`levelPtrs
      ensures Flatten(outputs) == Survivors(version, level, input, |input|, oldest)
      ensures forall run :: run in outputs ==> run != []
    {
      outputs := [];
      var builder: seq<Entry> := [];  // the open output file; a file is only opened to add an entry
      var currentUserKey: Option<UserKey> := None;
      var lastSequenceForKey := MAX_SEQUENCE;
      for i := 0 to |input|
        invariant Valid() && forall u :: i == 0 || u >= input[i - 1].key.user ==> Passed(u)
        invariant currentUserKey == if i == 0 then None else Some(input[i - 1].key.user)
        invariant i > 0 ==> lastSequenceForKey == input[i - 1].key.seqno
        invariant Flatten(outputs) + builder == Survivors(version, level, input, i, oldest)
        invariant forall run :: run in outputs ==> run != []
      {
        if stopBefore(i) && builder != [] {
          outputs, builder := FinishOutput(outputs, builder);
        }
        if currentUserKey != Some(input[i].key.user) {
          currentUserKey := Some(input[i].key.user);
          lastSequenceForKey := MAX_SEQUENCE;
        }
        var drop := ShouldDrop(input, i, lastSequenceForKey, oldest);
        lastSequenceForKey := input[i].key.seqno;
        if !drop {
          builder := builder + [input[i]];
          if full(i) {
            outputs, builder := FinishOutput(outputs, builder);
          }
        }
      }
      if builder != [] {
        outputs, builder := FinishOutput(outputs, builder);
      }
    }

    static method FinishOutput(outputs: seq<seq<Entry>>, builder: seq<Entry>)
      returns (finished: seq<seq<Entry>>, next: seq<Entry>)
      requires builder != [] && forall run :: run in outputs ==> run != []
      ensures next == [] && Flatten(finished) + next == Flatten(outputs) + builder
      ensures Flatten(finished) == Flatten(outputs) + builder
      ensures forall run :: run in finished ==> run != []
    {
      FlattenExtends(outputs, builder);
      finished, next := outputs + [builder], [];
    }
  }
}
