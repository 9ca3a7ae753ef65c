/** What applying version edits does to the contents and the order of a level. */
module VersionOrder {
  import opened Files
  import opened Versions

  /** Files of equal smallest key and number are equal. */
  ghost predicate Identified<C>(files: seq<File<C>>) {
    forall f, g :: f in files && g in files && f.smallest == g.smallest && f.number == g.number ==> f == g
  }

  lemma {:induction false} InsertOrdered<C(!new)>(added: seq<File<C>>, f: File<C>)
    requires StrictlyOrdered(added) && Identified(added + [f])
    ensures StrictlyOrdered(Insert(added, f))
    ensures forall g :: g in Insert(added, f) <==> g in added || g == f
  {
    if added == [] || BySmallestKey(f, added[0]) {
    } else if BySmallestKey(added[0], f) {
      var rest := added[1..];
      assert added == [added[0]] + rest;
      assert Identified(rest + [f]) by {
        assert forall g :: g in rest + [f] ==> g in added + [f];
      }
      InsertOrdered(rest, f);
      var r := Insert(rest, f);
      forall j | 0 <= j < |r|
        ensures BySmallestKey(added[0], r[j])
      {
        assert r[j] in r;
        if r[j] != f {
          var k :| 0 <= k < |rest| && rest[k] == r[j];
          assert added[k + 1] == r[j];
        }
      }
    } else {
      assert added[0] in added + [f] && f in added + [f];
    }
  }

  lemma {:induction false} InsertAllOrdered<C(!new)>(added: seq<File<C>>, files: seq<File<C>>)
    requires StrictlyOrdered(added) && Identified(added + files)
    ensures StrictlyOrdered(InsertAll(added, files))
    ensures forall g :: g in InsertAll(added, files) <==> g in added || g in files
  {
    if files != [] {
      var rest, f := files[..|files| - 1], files[|files| - 1];
      assert files == rest + [f];
      assert forall g :: g in added + rest ==> g in added + files;
      InsertAllOrdered(added, rest);
      var r := InsertAll(added, rest);
      assert forall g :: g in r + [f] ==> g in added + files;
      InsertOrdered(r, f);
    }
  }

  lemma OrderTransitive<C>(f: File<C>, g: File<C>, h: File<C>)
    requires !BySmallestKey(g, f) && !BySmallestKey(h, g)
    ensures !BySmallestKey(h, f)
  {
  }

  /** No file of `s` comes before `f`. */
  ghost predicate NoneBefore<C>(s: seq<File<C>>, f: File<C>) {
    forall k :: 0 <= k < |s| ==> !BySmallestKey(s[k], f)
  }

  lemma NoneBeforeHead<C>(s: seq<File<C>>, f: File<C>)
    requires Ordered(s) && (s != [] ==> !BySmallestKey(s[0], f))
    ensures NoneBefore(s, f)
  {
    forall k | 0 <= k < |s|
      ensures !BySmallestKey(s[k], f)
    {
      if k > 0 { OrderTransitive(f, s[0], s[k]); }
    }
  }

  lemma TailOrdered<C>(s: seq<File<C>>)
    requires Ordered(s) && s != []
    ensures Ordered(s[1..]) && NoneBefore(s[1..], s[0])
  {
  }

  lemma ConsOrdered<C>(f: File<C>, s: seq<File<C>>)
    requires Ordered(s) && NoneBefore(s, f)
    ensures Ordered([f] + s)
  {
  }

  lemma {:induction false} MergeContents<C>(base: seq<File<C>>, added: seq<File<C>>)
    ensures multiset(Merge(base, added)) == multiset(base) + multiset(added)
    decreases |base| + |added|
  {
    if added == [] {
    } else if base != [] && !BySmallestKey(added[0], base[0]) {
      assert base == [base[0]] + base[1..];
      MergeContents(base[1..], added);
    } else {
      assert added == [added[0]] + added[1..];
      MergeContents(base, added[1..]);
    }
  }

  lemma {:induction false} MergeOrdered<C(!new)>(base: seq<File<C>>, added: seq<File<C>>)
    requires Ordered(base) && Ordered(added)
    ensures Ordered(Merge(base, added)) && multiset(Merge(base, added)) == multiset(base) + multiset(added)
    decreases |base| + |added|
  {
    hide Ordered, NoneBefore;
    MergeContents(base, added);
    if added == [] {
    } else if base != [] && !BySmallestKey(added[0], base[0]) {
      var rest := Merge(base[1..], added);
      TailOrdered(base);
      MergeContents(base[1..], added);
      MergeOrdered(base[1..], added);
      NoneBeforeHead(added, base[0]);
      SmallestOfTwo(base[1..], added, rest, base[0]);
      ConsOrdered(base[0], rest);
    } else {
      var rest := Merge(base, added[1..]);
      TailOrdered(added);
      MergeContents(base, added[1..]);
      MergeOrdered(base, added[1..]);
      NoneBeforeHead(base, added[0]);
      SmallestOfTwo(base, added[1..], rest, added[0]);
      ConsOrdered(added[0], rest);
    }
  }

  lemma SmallestOfTwo<C>(a: seq<File<C>>, b: seq<File<C>>, merged: seq<File<C>>, f: File<C>)
    requires multiset(merged) == multiset(a) + multiset(b)
    requires NoneBefore(a, f) && NoneBefore(b, f)
    ensures NoneBefore(merged, f)
  {
    forall k | 0 <= k < |merged|
      ensures !BySmallestKey(merged[k], f)
    {
      assert merged[k] in multiset(merged);
      assert merged[k] in a || merged[k] in b;
    }
  }

  lemma {:induction false} KeepOrdered<C(!new)>(files: seq<File<C>>, deleted: set<nat>)
    requires Ordered(files)
    ensures Ordered(Keep(files, deleted))
    ensures forall f :: multiset(Keep(files, deleted))[f] == if f.number in deleted then 0 else multiset(files)[f]
  {
    if files != [] {
      var rest := Keep(files[1..], deleted);
      assert files == [files[0]] + files[1..];
      KeepOrdered(files[1..], deleted);
      forall k | 0 <= k < |rest|
        ensures !BySmallestKey(rest[k], files[0])
      {
        assert multiset(rest)[rest[k]] > 0;
        assert rest[k] in files[1..];
      }
    }
  }

  /** A level saved by a builder is in order and holds each base or added file that is not deleted. */
  lemma SaveLevelContents<C(!new)>(base: seq<File<C>>, deleted: set<nat>, added: seq<File<C>>)
    requires Ordered(base) && Ordered(added)
    ensures Ordered(SaveLevel(base, deleted, added))
    ensures forall f :: multiset(SaveLevel(base, deleted, added))[f] ==
                        if f.number in deleted then 0 else multiset(base)[f] + multiset(added)[f]
  {
    MergeOrdered(base, added);
    KeepOrdered(Merge(base, added), deleted);
  }

  lemma CountsTwice<C(!new)>(s: seq<File<C>>, i: nat, j: nat)
    requires i < j < |s| && s[i] == s[j]
    ensures multiset(s)[s[i]] >= 2
  {
    assert s == s[..j] + s[j..];
    assert s[..j][i] in s[..j] && s[j..][0] in s[j..];
  }

  /** Without repetitions the order is strict. */
  lemma OrderedOnce<C(!new)>(s: seq<File<C>>)
    requires Ordered(s) && Identified(s) && forall f :: multiset(s)[f] <= 1
    ensures StrictlyOrdered(s)
  {
    forall i, j | 0 <= i < j < |s|
      ensures BySmallestKey(s[i], s[j])
    {
      if !BySmallestKey(s[i], s[j]) {
        assert s[i] in s && s[j] in s;
        CountsTwice(s, i, j);
      }
    }
  }

  lemma StrictlyOrderedCounts<C(!new)>(s: seq<File<C>>)
    requires StrictlyOrdered(s)
    ensures Ordered(s) && forall f :: multiset(s)[f] == if f in s then 1 else 0
  {
    forall f | f in s
      ensures multiset(s)[f] == 1
    {
      var i :| 0 <= i < |s| && s[i] == f;
      assert s == s[..i] + [f] + s[i + 1..];
      assert f !in s[..i] && f !in s[i + 1..];
    }
  }

  /** An ordered level is determined by the files in it. */
  lemma {:induction false} OrderIsCanonical<C(!new)>(s: seq<File<C>>, t: seq<File<C>>)
    requires Ordered(s) && Ordered(t) && Identified(s) && multiset(s) == multiset(t)
    ensures s == t
  {
    if s == [] {
      assert forall f :: f in t ==> f in multiset(s);
    } else {
      assert s[0] in multiset(t) && t != [];
      assert t[0] in multiset(s) && t[0] in s;
      HeadsAgree(s, t);
      TailsAgree(s, t);
      OrderIsCanonical(s[1..], t[1..]);
    }
  }

  lemma TailsAgree<C(!new)>(s: seq<File<C>>, t: seq<File<C>>)
    requires s != [] && t != [] && s[0] == t[0] && multiset(s) == multiset(t)
    ensures multiset(s[1..]) == multiset(t[1..])
  {
    assert s == [s[0]] + s[1..] && t == [t[0]] + t[1..];
    assert multiset(s[1..]) == multiset(s) - multiset{s[0]};
    assert multiset(t[1..]) == multiset(t) - multiset{t[0]};
  }

  lemma HeadsAgree<C(!new)>(s: seq<File<C>>, t: seq<File<C>>)
    requires Ordered(s) && Ordered(t) && Identified(s)
    requires s != [] && t != [] && s[0] in t && t[0] in s
    ensures s[0] == t[0]
  {
    var i :| 0 <= i < |s| && s[i] == t[0];
    var j :| 0 <= j < |t| && t[j] == s[0];
    assert i == 0 || j == 0 || (!BySmallestKey(s[i], s[0]) && !BySmallestKey(t[j], t[0]));
    assert s[0] in s;
  }
}
