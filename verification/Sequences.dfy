/** Sequences of sequences, one behind the other. */
module Sequences {
  function Flatten<T>(runs: seq<seq<T>>): seq<T> {
    if runs == [] then [] else Flatten(runs[..|runs| - 1]) + runs[|runs| - 1]
  }

  lemma FlattenExtends<T>(runs: seq<seq<T>>, run: seq<T>)
    ensures Flatten(runs + [run]) == Flatten(runs) + run
  {
    assert (runs + [run])[..|runs|] == runs;
  }

  lemma {:induction false} FlattenJoins<T>(a: seq<seq<T>>, b: seq<seq<T>>)
    ensures Flatten(a + b) == Flatten(a) + Flatten(b)
  {
    if b == [] {
      assert a + b == a;
    } else {
      FlattenJoins(a, b[..|b| - 1]);
      assert (a + b)[..|a + b| - 1] == a + b[..|b| - 1];
    }
  }

  lemma FlattenFirst<T>(runs: seq<seq<T>>)
    requires runs != []
    ensures Flatten(runs) == runs[0] + Flatten(runs[1..])
  {
    assert runs == [runs[0]] + runs[1..] && [runs[0]][..0] == [];
    FlattenJoins([runs[0]], runs[1..]);
    assert Flatten([runs[0]]) == Flatten<T>([]) + runs[0];
  }

  lemma FlattenPrefix<T>(runs: seq<seq<T>>, k: nat)
    requires k <= |runs|
    ensures Flatten(runs[..k]) <= Flatten(runs)
  {
    assert runs == runs[..k] + runs[k..];
    FlattenJoins(runs[..k], runs[k..]);
  }
}
