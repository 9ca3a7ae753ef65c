/**
 * The cache's hash table (util/cache.cc, HandleTable): chains of handles, rehashed into more buckets as it grows. A
 * handle is known here by its key and hash and by its address, for which a number stands.
 */
module HandleTables {
  import opened Wrappers
  import opened InternalKeys

  datatype Ref = Ref(id: nat, key: Bytes, hash: nat)

  type Chain = seq<Ref>

  predicate Matches(r: Ref, key: Bytes, hash: nat) { r.hash == hash && r.key == key }

  /** A set of handles with at most one for a key and hash. */
  ghost predicate Unique(refs: set<Ref>) {
    forall a, b :: a in refs && b in refs && Matches(a, b.key, b.hash) ==> a == b
  }

  ghost function Members(list: seq<Chain>): set<Ref> {
    set i, r | 0 <= i < |list| && r in list[i] :: r
  }

  function Total(list: seq<Chain>): nat {
    if list == [] then 0 else Total(list[..|list| - 1]) + |list[|list| - 1]|
  }

  ghost predicate ChainOk(chain: Chain, n: nat, i: nat)
    requires n > 0
  {
    && (forall r :: r in chain ==> r.hash % n == i)
    && forall j, k :: 0 <= j < k < |chain| ==> !Matches(chain[j], chain[k].key, chain[k].hash)
  }

  ghost predicate ListOk(list: seq<Chain>) {
    |list| > 0 && forall i :: 0 <= i < |list| ==> ChainOk(list[i], |list|, i)
  }

  /** Where a matching handle is in a chain, its end if there is none. */
  function Find(chain: Chain, key: Bytes, hash: nat): (p: nat)
    ensures p <= |chain| && (p < |chain| ==> Matches(chain[p], key, hash))
    ensures forall j :: 0 <= j < p ==> !Matches(chain[j], key, hash)
  {
    if chain == [] || Matches(chain[0], key, hash) then 0 else 1 + Find(chain[1..], key, hash)
  }

  /** The member that matches. */
  ghost function MatchIn(refs: set<Ref>, key: Bytes, hash: nat): Option<Ref> {
    if exists r :: r in refs && Matches(r, key, hash) then
      var r :| r in refs && Matches(r, key, hash); Some(r)
    else None
  }

  lemma MembersUnique(list: seq<Chain>)
    requires ListOk(list)
    ensures Unique(Members(list))
  {
    forall a, b | a in Members(list) && b in Members(list) && Matches(a, b.key, b.hash)
      ensures a == b
    {
      var i :| 0 <= i < |list| && a in list[i];
      var j :| 0 <= j < |list| && b in list[j];
      assert ChainOk(list[i], |list|, i) && ChainOk(list[j], |list|, j);
      var k :| 0 <= k < |list[i]| && list[i][k] == a;
      var l :| 0 <= l < |list[j]| && list[j][l] == b;
    }
  }

  lemma InMembers(list: seq<Chain>, i: nat, r: Ref)
    requires i < |list| && r in list[i]
    ensures r in Members(list)
  {
  }

  /** A search in the bucket of the hash is a search in the whole table. */
  lemma FindIsMatch(list: seq<Chain>, key: Bytes, hash: nat)
    requires ListOk(list)
    ensures var chain := list[hash % |list|];
            var p := Find(chain, key, hash);
            MatchIn(Members(list), key, hash) == if p < |chain| then Some(chain[p]) else None
  {
    var b := hash % |list|;
    var p := Find(list[b], key, hash);
    MembersUnique(list);
    if p < |list[b]| { InMembers(list, b, list[b][p]); }
    forall r | r in Members(list) && Matches(r, key, hash)
      ensures p < |list[b]| && list[b][p] == r
    {
      var i :| 0 <= i < |list| && r in list[i];
      assert ChainOk(list[i], |list|, i);
      var j :| 0 <= j < |list[i]| && list[i][j] == r;
    }
  }

  /** A chain with a handle put in: in the place of the one that matches, or at the end. */
  function Put(chain: Chain, h: Ref): Chain {
    var p := Find(chain, h.key, h.hash);
    if p < |chain| then chain[p := h] else chain + [h]
  }

  function Drop(chain: Chain, key: Bytes, hash: nat): Chain {
    var p := Find(chain, key, hash);
    if p < |chain| then chain[..p] + chain[p + 1..] else chain
  }

  lemma PutMembers(list: seq<Chain>, h: Ref)
    requires ListOk(list)
    ensures var b := h.hash % |list|;
            var list2, was := list[b := Put(list[b], h)], MatchIn(Members(list), h.key, h.hash);
            && ListOk(list2)
            && Members(list2) == Members(list) - (if was.Some? then {was.value} else {}) + {h}
  {
    var b := h.hash % |list|;
    var chain := list[b];
    var p, list2 := Find(chain, h.key, h.hash), list[b := Put(chain, h)];
    FindIsMatch(list, h.key, h.hash);
    assert ChainOk(chain, |list|, b);
    PutChain(chain, h, |list|, b);
    assert forall i :: 0 <= i < |list| && i != b ==> list2[i] == list[i] && ChainOk(list[i], |list|, i);
    OtherChains(list, list2, b);
  }

  lemma PutChain(chain: Chain, h: Ref, n: nat, b: nat)
    requires n > 0 && b == h.hash % n && ChainOk(chain, n, b)
    ensures ChainOk(Put(chain, h), n, b)
    ensures var p := Find(chain, h.key, h.hash);
            forall r :: r in Put(chain, h) <==> r == h || (r in chain && !(p < |chain| && r == chain[p]))
  {
    var p, chain2 := Find(chain, h.key, h.hash), Put(chain, h);
    forall r
      ensures r in chain2 <==> r == h || (r in chain && !(p < |chain| && r == chain[p]))
    {
      if r in chain2 {
        var i :| 0 <= i < |chain2| && chain2[i] == r;
        if i < |chain| && i != p { assert chain[i] == r; }
      }
      if r in chain && !(p < |chain| && r == chain[p]) {
        var i :| 0 <= i < |chain| && chain[i] == r;
        assert chain2[i] == r;
      }
      if r == h { assert chain2[if p < |chain| then p else |chain|] == h; }
    }
  }

  lemma DropChain(chain: Chain, key: Bytes, hash: nat, n: nat, b: nat)
    requires n > 0 && ChainOk(chain, n, b)
    ensures ChainOk(Drop(chain, key, hash), n, b)
    ensures var p := Find(chain, key, hash);
            forall r :: r in Drop(chain, key, hash) <==> r in chain && !(p < |chain| && r == chain[p])
  {
    var p := Find(chain, key, hash);
    if p < |chain| {
      DropOk(chain, p, n, b);
      forall r
        ensures r in Drop(chain, key, hash) <==> r in chain && r != chain[p]
      {
        DroppedOne(chain, p, r);
      }
    }
  }

  lemma DropOk(chain: Chain, p: nat, n: nat, b: nat)
    requires n > 0 && ChainOk(chain, n, b) && p < |chain|
    ensures ChainOk(chain[..p] + chain[p + 1..], n, b)
  {
    var chain2 := chain[..p] + chain[p + 1..];
    forall r | r in chain2
      ensures r in chain
    {
      var i :| 0 <= i < |chain2| && chain2[i] == r;
      assert chain[if i < p then i else i + 1] == r;
    }
    forall j, k | 0 <= j < k < |chain2|
      ensures !Matches(chain2[j], chain2[k].key, chain2[k].hash)
    {
      assert chain2[j] == chain[if j < p then j else j + 1] && chain2[k] == chain[if k < p then k else k + 1];
    }
  }

  lemma DroppedOne(chain: Chain, p: nat, r: Ref)
    requires p < |chain| && forall j, k :: 0 <= j < k < |chain| ==> !Matches(chain[j], chain[k].key, chain[k].hash)
    ensures r in chain[..p] + chain[p + 1..] <==> r in chain && r != chain[p]
  {
    var chain2 := chain[..p] + chain[p + 1..];
    if r in chain2 {
      var i :| 0 <= i < |chain2| && chain2[i] == r;
      assert chain[if i < p then i else i + 1] == r;
    }
    if r in chain && r != chain[p] {
      var i :| 0 <= i < |chain| && chain[i] == r;
      assert chain2[if i < p then i else i - 1] == r;
    }
  }

  /** Two lists that differ in one chain. */
  lemma OtherChains(list: seq<Chain>, list2: seq<Chain>, b: nat)
    requires |list| == |list2| && b < |list| && forall i :: 0 <= i < |list| && i != b ==> list2[i] == list[i]
    requires ListOk(list) && ChainOk(list2[b], |list|, b)
    ensures ListOk(list2)
    ensures forall r :: r in Members(list2) <==> r in list2[b] || (r in Members(list) && r !in list[b])
  {
    forall i | 0 <= i < |list|
      ensures ChainOk(list2[i], |list|, i)
    {
      assert ChainOk(list[i], |list|, i);
    }
    forall r
      ensures r in Members(list2) <==> r in list2[b] || (r in Members(list) && r !in list[b])
    {
      if r in Members(list2) {
        var i :| 0 <= i < |list2| && r in list2[i];
        if i != b { InOneChain(list2, i, b, r); }
      }
      if r in Members(list) && r !in list[b] {
        var i :| 0 <= i < |list| && r in list[i];
        assert r in list2[i];
      }
    }
  }

  lemma InOneChain(list: seq<Chain>, i: nat, j: nat, r: Ref)
    requires ListOk(list) && i < |list| && j < |list| && r in list[i] && i != j
    ensures r !in list[j]
  {
    assert ChainOk(list[i], |list|, i) && ChainOk(list[j], |list|, j);
  }

  lemma DropMembers(list: seq<Chain>, key: Bytes, hash: nat)
    requires ListOk(list)
    ensures var b := hash % |list|;
            var list2, was := list[b := Drop(list[b], key, hash)], MatchIn(Members(list), key, hash);
            ListOk(list2) && Members(list2) == Members(list) - if was.Some? then {was.value} else {}
  {
    var b := hash % |list|;
    FindIsMatch(list, key, hash);
    assert ChainOk(list[b], |list|, b);
    DropChain(list[b], key, hash, |list|, b);
    OtherChains(list, list[b := Drop(list[b], key, hash)], b);
    MembersUnique(list);
  }

  lemma {:induction false} TotalUpdated(list: seq<Chain>, b: nat, chain: Chain)
    requires b < |list|
    ensures Total(list[b := chain]) == Total(list) - |list[b]| + |chain|
    decreases |list|
  {
    var front, list2 := list[..|list| - 1], list[b := chain];
    if b < |front| {
      TotalUpdated(front, b, chain);
      assert list2[..|list| - 1] == front[b := chain];
    } else {
      assert list2[..|list| - 1] == front;
    }
  }

  class HandleTable {
    var elems: nat
    var list: seq<Chain>

    ghost predicate Valid()
      reads this
    {
      ListOk(list) && elems == Total(list)
    }

    ghost function Refs(): set<Ref>
      reads this
    {
      Members(list)
    }

    constructor ()
      ensures Valid() && Refs() == {}
    {
      elems, list := 0, seq(4, _ => []);
      new;
      Emptied(list);
    }

    method Lookup(key: Bytes, hash: nat) returns (r: Option<Ref>)
      requires Valid()
      ensures r == MatchIn(Refs(), key, hash)
    {
      var chain := list[hash % |list|];
      var p := FindPointer(chain, key, hash);
      FindIsMatch(list, key, hash);
      r := if p < |chain| then Some(chain[p]) else None;
    }

    static method FindPointer(chain: Chain, key: Bytes, hash: nat) returns (p: nat)
      ensures p == Find(chain, key, hash)
    {
      p := 0;
      while p < |chain| && !Matches(chain[p], key, hash)
        invariant p <= |chain| && Find(chain, key, hash) == p + Find(chain[p..], key, hash)
      {
        assert chain[p..][1..] == chain[p + 1..];
        p := p + 1;
      }
    }

    /** Puts a handle in and returns the one it replaces. */
    method Insert(h: Ref) returns (was: Option<Ref>)
      requires Valid()
      modifies this
      ensures Valid() && was == MatchIn(old(Refs()), h.key, h.hash)
      ensures Refs() == old(Refs()) - (if was.Some? then {was.value} else {}) + {h}
    {
      var b := h.hash % |list|;
      var chain := list[b];
      var p := FindPointer(chain, h.key, h.hash);
      FindIsMatch(list, h.key, h.hash);
      PutMembers(list, h);
      TotalUpdated(list, b, Put(chain, h));
      if p < |chain| {
        was := Some(chain[p]);
        list := list[b := chain[p := h]];
      } else {
        was := None;
        list := list[b := chain + [h]];
        elems := elems + 1;
        if elems > |list| {
          Resize();
        }
      }
    }

    method Remove(key: Bytes, hash: nat) returns (was: Option<Ref>)
      requires Valid()
      modifies this
      ensures Valid() && was == MatchIn(old(Refs()), key, hash)
      ensures Refs() == old(Refs()) - if was.Some? then {was.value} else {}
    {
      var b := hash % |list|;
      var chain := list[b];
      var p := FindPointer(chain, key, hash);
      FindIsMatch(list, key, hash);
      DropMembers(list, key, hash);
      TotalUpdated(list, b, Drop(chain, key, hash));
      if p < |chain| {
        was := Some(chain[p]);
        list := list[b := chain[..p] + chain[p + 1..]];
        elems := elems - 1;
      } else {
        was := None;
      }
    }

    /** Rehashes every handle into at least as many buckets as there are handles. */
    method Resize()
      requires Valid()
      modifies this
      ensures Valid() && Refs() == old(Refs()) && elems == old(elems) && |list| >= elems
    {
      var newLength := 4;
      while newLength < elems
        invariant newLength >= 4
        decreases elems - newLength
      {
        newLength := newLength * 2;
      }
      var newList: seq<Chain>, count := seq(newLength, _ => []), 0;
      NothingRehashed(list, newList);
      hide ListOk, Rehashed, RehashedPart;
      for i := 0 to |list|
        modifies {}
        invariant |newList| == newLength && Rehashed(list, newList, i, count)
      {
        ChainBegins(list, newList, i, count);
        for j := 0 to |list[i]|
          modifies {}
          invariant |newList| == newLength && RehashedPart(list, newList, i, j, count)
        {
          var h := list[i][j];
          OneRehashed(list, newList, i, j, count);
          newList := newList[h.hash % newLength := [h] + newList[h.hash % newLength]];
          count := count + 1;
        }
        ChainEnds(list, newList, i, count);
      }
      AllRehashed(list, newList, count);
      assert elems == count;
      list := newList;
    }
  }

  /** The handles of the first `i` chains are in the new list. */
  ghost predicate Rehashed(list: seq<Chain>, newList: seq<Chain>, i: nat, count: nat) {
    && i <= |list| && ListOk(list) && ListOk(newList)
    && Total(newList) == Total(list[..i]) == count && Members(newList) == Members(list[..i])
  }

  /** So are the first `j` of the next chain. */
  ghost predicate RehashedPart(list: seq<Chain>, newList: seq<Chain>, i: nat, j: nat, count: nat) {
    && i < |list| && j <= |list[i]| && ListOk(list) && ListOk(newList)
    && Total(newList) == Total(list[..i]) + j == count && Members(newList) == Members(list[..i]) + FirstOf(list[i], j)
  }

  lemma NothingRehashed(list: seq<Chain>, newList: seq<Chain>)
    requires ListOk(list) && |newList| > 0 && forall i :: 0 <= i < |newList| ==> newList[i] == []
    ensures Rehashed(list, newList, 0, 0)
  {
    Emptied(newList);
    assert list[..0] == [];
  }

  lemma ChainBegins(list: seq<Chain>, newList: seq<Chain>, i: nat, count: nat)
    requires Rehashed(list, newList, i, count) && i < |list|
    ensures RehashedPart(list, newList, i, 0, count)
  {
  }

  lemma OneRehashed(list: seq<Chain>, newList: seq<Chain>, i: nat, j: nat, count: nat)
    requires RehashedPart(list, newList, i, j, count) && j < |list[i]|
    ensures |newList| > 0
    ensures var h := list[i][j];
            var b := h.hash % |newList|;
            RehashedPart(list, newList[b := [h] + newList[b]], i, j + 1, count + 1)
  {
    var h := list[i][j];
    assert |newList| > 0;
    var b := h.hash % |newList|;
    NotThereYet(list, i, j);
    PushMembers(newList, h);
    TotalUpdated(newList, b, [h] + newList[b]);
    FirstMore(list[i], j);
    hide ListOk, Members, FirstOf, Total;
  }

  lemma ChainEnds(list: seq<Chain>, newList: seq<Chain>, i: nat, count: nat)
    requires i < |list| && RehashedPart(list, newList, i, |list[i]|, count)
    ensures Rehashed(list, newList, i + 1, count)
  {
    OneMoreChain(list, i);
    hide ListOk, Members, FirstOf, Total;
  }

  lemma AllRehashed(list: seq<Chain>, newList: seq<Chain>, count: nat)
    requires Rehashed(list, newList, |list|, count)
    ensures ListOk(newList) && Total(newList) == Total(list) == count && Members(newList) == Members(list)
  {
    assert list[..|list|] == list;
  }

  ghost function FirstOf(chain: Chain, n: nat): set<Ref>
    requires n <= |chain|
  {
    set i | 0 <= i < n :: chain[i]
  }

  lemma FirstMore(chain: Chain, n: nat)
    requires n < |chain|
    ensures FirstOf(chain, n + 1) == FirstOf(chain, n) + {chain[n]}
  {
  }

  lemma {:induction false} Emptied(list: seq<Chain>)
    requires |list| > 0 && forall i :: 0 <= i < |list| ==> list[i] == []
    ensures ListOk(list) && Members(list) == {} && Total(list) == 0
  {
    if |list| > 1 { Emptied(list[..|list| - 1]); }
  }

  lemma NotThereYet(list: seq<Chain>, i: nat, j: nat)
    requires ListOk(list) && i < |list| && j < |list[i]|
    ensures forall r :: r in Members(list[..i]) + FirstOf(list[i], j) ==> !Matches(r, list[i][j].key, list[i][j].hash)
  {
    var h := list[i][j];
    assert ChainOk(list[i], |list|, i);
    forall r | r in Members(list[..i])
      ensures !Matches(r, h.key, h.hash)
    {
      var k :| 0 <= k < i && r in list[..i][k];
      assert ChainOk(list[k], |list|, k);
    }
  }

  /** A handle pushed to the front of its chain. */
  lemma PushMembers(list: seq<Chain>, h: Ref)
    requires ListOk(list) && forall r :: r in Members(list) ==> !Matches(r, h.key, h.hash)
    ensures var b := h.hash % |list|;
            ListOk(list[b := [h] + list[b]]) && Members(list[b := [h] + list[b]]) == Members(list) + {h}
  {
    var b := h.hash % |list|;
    assert ChainOk(list[b], |list|, b);
    forall r | r in list[b]
      ensures !Matches(h, r.key, r.hash)
    {
      InMembers(list, b, r);
    }
    OtherChains(list, list[b := [h] + list[b]], b);
    forall r
      ensures r in Members(list[b := [h] + list[b]]) <==> r in Members(list) || r == h
    {
      if r in list[b] { InMembers(list, b, r); }
    }
  }

  lemma OneMoreChain(list: seq<Chain>, i: nat)
    requires i < |list|
    ensures Members(list[..i + 1]) == Members(list[..i]) + FirstOf(list[i], |list[i]|)
    ensures Total(list[..i + 1]) == Total(list[..i]) + |list[i]|
  {
    assert list[..i + 1][..i] == list[..i];
    forall r
      ensures r in Members(list[..i + 1]) <==> r in Members(list[..i]) || r in FirstOf(list[i], |list[i]|)
    {
      if r in Members(list[..i + 1]) {
        var k :| 0 <= k < i + 1 && r in list[..i + 1][k];
        if k < i { assert list[..i][k] == list[k]; }
      }
      if r in Members(list[..i]) {
        var k :| 0 <= k < i && r in list[..i][k];
        assert list[..i + 1][k] == list[k];
      }
      if r in FirstOf(list[i], |list[i]|) { assert r in list[..i + 1][i]; }
    }
  }
}
