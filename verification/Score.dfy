/** Which level is to be compacted: the one most over its limit (db/version_set.cc, Finalize). */
module Scores {
  import opened InternalKeys
  import opened Files
  import opened Compactions
  import Coding

  const L0_COMPACTION_TRIGGER: nat := 4

  /** The limit of a level above 0 in bytes: ten megabytes for the first, and ten times more for each further one. */
  function MaxBytes(level: nat): (r: real)
    ensures r > 0.0
  {
    if level <= 1 then 10.0 * 1048576.0 else 10.0 * MaxBytes(level - 1)
  }

  /** How far a level has come to its limit, which for level 0 is one on the number of files. */
  function Score(files: seq<Table>, level: nat): real {
    if level == 0 then |files| as real / L0_COMPACTION_TRIGGER as real else TotalSize(files) as real / MaxBytes(level)
  }

  method MaxBytesForLevel(level: nat) returns (result: real)
    ensures result == MaxBytes(level)
  {
    result := 10.0 * 1048576.0;
    var l: nat := level;
    while l > 1
      invariant l <= level && (level > 0 ==> l > 0)
      invariant result * MaxBytes(l) == MaxBytes(level) * MaxBytes(1)
    {
      result := result * 10.0;
      l := l - 1;
    }
  }

  /** No level has a higher score, and none before it the same. */
  ghost predicate IsBestLevel(levels: seq<seq<Table>>, level: nat)
    requires |levels| == NUM_LEVELS
  {
    level + 1 < NUM_LEVELS
    && forall l :: 0 <= l < NUM_LEVELS - 1 ==>
         && Score(levels[l], l) <= Score(levels[level], level)
         && (l < level ==> Score(levels[l], l) < Score(levels[level], level))
  }

  method Finalize(levels: seq<seq<Table>>) returns (bestLevel: nat, bestScore: real)
    requires |levels| == NUM_LEVELS
    ensures IsBestLevel(levels, bestLevel) && bestScore == Score(levels[bestLevel], bestLevel)
  {
    bestLevel, bestScore := 0, -1.0;
    for level := 0 to NUM_LEVELS - 1
      invariant bestLevel < NUM_LEVELS - 1 && (level == 0 ==> bestScore < 0.0)
      invariant level > 0 ==> bestLevel < level && bestScore == Score(levels[bestLevel], bestLevel)
      invariant forall l :: 0 <= l < level ==>
        Score(levels[l], l) <= bestScore && (l < bestLevel ==> Score(levels[l], l) < bestScore)
    {
      var score: real;
      if level == 0 {
        score := |levels[0]| as real / L0_COMPACTION_TRIGGER as real;
      } else {
        var bytes := TotalFileSize(levels[level]);
        var limit := MaxBytesForLevel(level);
        score := bytes as real / limit;
      }
      if score > bestScore {
        bestLevel, bestScore := level, score;
      }
    }
  }

  lemma {:induction false} LimitIsPower(level: nat)
    requires level >= 1
    ensures MaxBytes(level) == (1048576 * Coding.Power(10, level)) as real
  {
    if level > 1 {
      LimitIsPower(level - 1);
      assert Coding.Power(10, level) == 10 * Coding.Power(10, level - 1);
    } else {
      assert Coding.Power(10, 1) == 10 * Coding.Power(10, 0);
    }
  }

  /** A level is due with four files if it is level 0, and with ten to the power of its number megabytes else. */
  lemma DueExactly(files: seq<Table>, level: nat)
    ensures Score(files, level) >= 1.0
            <==> if level == 0 then |files| >= 4 else TotalSize(files) >= 1048576 * Coding.Power(10, level)
  {
    hide Score, MaxBytes, Coding.Power;
    if level == 0 {
      DueByCount(files);
    } else {
      LimitIsPower(level);
      DueBySize(files, level);
    }
  }

  lemma DueByCount(files: seq<Table>)
    ensures Score(files, 0) >= 1.0 <==> |files| >= 4
  {
  }

  lemma DueBySize(files: seq<Table>, level: nat)
    requires level > 0
    ensures Score(files, level) >= 1.0 <==> TotalSize(files) as real >= MaxBytes(level)
  {
    Compare(TotalSize(files) as real, MaxBytes(level));
  }

  lemma Compare(total: real, limit: real)
    requires limit > 0.0
    ensures total / limit >= 1.0 <==> total >= limit
  {
    var x := total / limit;
    assert x * limit == total;
    if x >= 1.0 { assert (x - 1.0) * limit >= 0.0; } else { assert (1.0 - x) * limit > 0.0; }
  }

  /** A level that has come to its limit is not empty. */
  lemma FullIsNotEmpty(files: seq<Table>, level: nat)
    requires Score(files, level) >= 1.0
    ensures files != []
  {
    assert TotalSize<seq<Entry>>([]) == 0;
  }
}
