/**
 * The LRU cache (util/cache.cc, LRUCache): reference-counted handles on two lists and in a hash table. A number stands
 * for the address of a handle; a handle that is freed is taken out of `handles`, so that nothing can use it again.
 */
module Caches {
  import opened Wrappers
  import opened InternalKeys
  import opened HandleTables
  import opened HandleLists
  import opened IntrusiveLists

  datatype LRUHandle = LRUHandle(key: Bytes, hash: nat, charge: nat, inCache: bool, refs: nat)

  /** The state of a cache but for its hash table; `deleted` are the handles whose deleters have run, in order. */
  datatype Core = Core(handles: map<nat, LRUHandle>, lru: seq<nat>, inUse: seq<nat>, usage: int, deleted: seq<nat>)

  // Lists

  ghost function Elements(list: seq<nat>): set<nat> {
    set id | id in list
  }

  // Charges

  function Charge(handles: map<nat, LRUHandle>, id: nat): nat {
    if id in handles then handles[id].charge else 0
  }

  function Charges(handles: map<nat, LRUHandle>, list: seq<nat>): nat {
    if list == [] then 0 else Charge(handles, list[0]) + Charges(handles, list[1..])
  }

  lemma {:induction false} ChargesJoin(handles: map<nat, LRUHandle>, a: seq<nat>, b: seq<nat>)
    ensures Charges(handles, a + b) == Charges(handles, a) + Charges(handles, b)
  {
    if a == [] {
      assert a + b == b;
    } else {
      ChargesJoin(handles, a[1..], b);
      assert (a + b)[1..] == a[1..] + b;
    }
  }

  lemma {:induction false} ChargesWithout(handles: map<nat, LRUHandle>, list: seq<nat>, id: nat)
    ensures Charges(handles, Without(list, id)) == Charges(handles, list) - if id in list then Charge(handles, id) else 0
  {
    if list != [] {
      assert list == [list[0]] + list[1..];
      ChargesWithout(handles, list[1..], id);
    }
  }

  /** Charges only depend on the charges of the listed handles. */
  lemma {:induction false} SameCharges(a: map<nat, LRUHandle>, b: map<nat, LRUHandle>, list: seq<nat>)
    requires forall id :: id in list ==> Charge(a, id) == Charge(b, id)
    ensures Charges(a, list) == Charges(b, list)
  {
    if list != [] {
      assert list[0] in list && forall x :: x in list[1..] ==> x in list;
      SameCharges(a, b, list[1..]);
    }
  }

  // The invariant

  /** The least recently used handles are in the cache only; those in use have other references too. */
  ghost predicate ListsOk(c: Core) {
    && Distinct(c.lru) && Distinct(c.inUse) && (forall id :: id in c.lru ==> id !in c.inUse)
    && (forall id :: id in c.lru ==> id in c.handles && c.handles[id].inCache && c.handles[id].refs == 1)
    && (forall id :: id in c.inUse ==> id in c.handles && c.handles[id].inCache && c.handles[id].refs >= 2)
    && (forall id :: id in c.handles && c.handles[id].inCache ==> id in c.lru || id in c.inUse)
  }

  /** A handle is on the list its references put it on. */
  ghost predicate Listed(c: Core, id: nat) {
    id in c.handles && id in if c.handles[id].refs == 1 then c.lru else c.inUse
  }

  /** The references are those of the clients, and the cache's own. */
  ghost predicate CountsOk(c: Core, clients: multiset<nat>) {
    && (forall id :: id in c.handles ==>
          c.handles[id].refs == clients[id] + (if c.handles[id].inCache then 1 else 0) && c.handles[id].refs > 0)
    && (forall id :: id in clients ==> id in c.handles)
  }

  /** Every handle ever made is either there or has been deleted, once. */
  ghost predicate DeletedOk(c: Core, next: nat) {
    && Distinct(c.deleted) && (forall id :: id in c.deleted ==> id !in c.handles)
    && forall id: nat :: id < next <==> id in c.handles || id in c.deleted
  }

  ghost predicate UsageOk(c: Core) {
    c.usage == Charges(c.handles, c.lru) + Charges(c.handles, c.inUse)
  }

  ghost predicate CoreOk(c: Core, clients: multiset<nat>, next: nat) {
    ListsOk(c) && CountsOk(c, clients) && DeletedOk(c, next) && UsageOk(c)
  }

  /** The hash table holds exactly the handles in the cache. */
  ghost predicate TableOk(c: Core, refs: set<Ref>) {
    forall r :: r in refs <==> r.id in c.handles && c.handles[r.id].inCache && r == RefOf(c, r.id)
  }

  ghost predicate CacheOk(c: Core, clients: multiset<nat>, next: nat, refs: set<Ref>) {
    CoreOk(c, clients, next) && TableOk(c, refs)
  }

  function RefOf(c: Core, id: nat): Ref
    requires id in c.handles
  {
    Ref(id, c.handles[id].key, c.handles[id].hash)
  }

  // What the parts of the code do

  /** Ref: a handle only the cache held goes to the list of those in use. */
  function Referenced(c: Core, id: nat): Core
    requires id in c.handles
  {
    var h := c.handles[id];
    var moved :=
      if h.refs == 1 && h.inCache then c.(lru := Without(c.lru, id), inUse := Without(c.inUse, id) + [id]) else c;
    moved.(handles := c.handles[id := h.(refs := h.refs + 1)])
  }

  /** Unref: the last reference frees the handle, the last but the cache's makes it the most recent unused one. */
  function Unreferenced(c: Core, id: nat): Core
    requires id in c.handles && c.handles[id].refs > 0
  {
    var h := c.handles[id];
    if h.refs == 1 then c.(handles := c.handles - {id}, deleted := c.deleted + [id])
    else
      var less := c.(handles := c.handles[id := h.(refs := h.refs - 1)]);
      if h.inCache && h.refs == 2 then less.(lru := Without(c.lru, id) + [id], inUse := Without(c.inUse, id)) else less
  }

  /** What FinishErase has done before it drops the reference. */
  function Unlisted(c: Core, id: nat): Core
    requires id in c.handles
  {
    c.(lru := Without(c.lru, id), inUse := Without(c.inUse, id), usage := c.usage - c.handles[id].charge,
       handles := c.handles[id := c.handles[id].(inCache := false)])
  }

  /** FinishErase. */
  function Erased(c: Core, id: nat): Core
    requires id in c.handles && c.handles[id].refs > 0
  {
    Unreferenced(Unlisted(c, id), id)
  }

  /** A new handle, in the cache and held by the client that asked for it. */
  function Added(c: Core, id: nat, key: Bytes, hash: nat, charge: nat): Core {
    c.(handles := c.handles[id := LRUHandle(key, hash, charge, true, 2)], inUse := c.inUse + [id], usage := c.usage + charge)
  }

  /** The handles on the unused list have the cache's reference only. */
  ghost predicate Evictable(c: Core) {
    && (forall id :: id in c.lru ==> id in c.handles && c.handles[id].refs == 1 && id !in c.inUse)
    && Distinct(c.lru)
  }

  /** Oldest first, until the usage fits or nothing unused is left. */
  function Evicted(c: Core, capacity: int): Core
    requires Evictable(c)
    decreases |c.lru|
  {
    if c.usage <= capacity || c.lru == [] then c
    else
      OldestErased(c);
      Evicted(Erased(c, c.lru[0]), capacity)
  }

  lemma OldestErased(c: Core)
    requires c.lru != [] && Evictable(c)
    ensures var e := Erased(c, c.lru[0]);
            && e.lru == c.lru[1..] && e.inUse == c.inUse && e.deleted == c.deleted + [c.lru[0]]
            && e.handles == c.handles - {c.lru[0]} && e.usage == c.usage - Charge(c.handles, c.lru[0])
            && Evictable(e)
  {
    var id := c.lru[0];
    assert id in c.lru && Without(c.lru, id) == c.lru[1..];
    NothingWithout(c.inUse, id);
    assert forall x :: x in c.lru[1..] ==> x in c.lru && x != id;
  }

  // What they keep

  /** Charges are unchanged when a handle only gets other references. */
  lemma SameTotals(c: Core, handles: map<nat, LRUHandle>)
    requires forall id :: id in c.lru || id in c.inUse ==> Charge(c.handles, id) == Charge(handles, id)
    ensures Charges(handles, c.lru) == Charges(c.handles, c.lru)
    ensures Charges(handles, c.inUse) == Charges(c.handles, c.inUse)
  {
    SameCharges(c.handles, handles, c.lru);
    SameCharges(c.handles, handles, c.inUse);
  }

  /** The members of the lists when one is moved to an end. */
  lemma AtTheEnd(list: seq<nat>, id: nat)
    requires Distinct(list)
    ensures var w := Without(list, id);
            && Distinct(w) && Distinct(w + [id])
            && (forall x :: x in w <==> x in list && x != id) && forall x :: x in w + [id] <==> x in list || x == id
  {
    WithoutMembers(list, id);
    var w := Without(list, id);
    assert forall j :: 0 <= j < |w| ==> w[j] in w;
  }

  lemma RefKeeps(c: Core, clients: multiset<nat>, next: nat, id: nat)
    requires CoreOk(c, clients, next) && id in c.handles
    ensures CoreOk(Referenced(c, id), clients + multiset{id}, next)
  {
    hide ListsOk, CountsOk, DeletedOk, UsageOk, Referenced;
    RefLists(c, id);
    RefCounts(c, clients, next, id);
    RefUsage(c, id);
  }

  lemma RefLists(c: Core, id: nat)
    requires ListsOk(c) && id in c.handles
    ensures ListsOk(Referenced(c, id))
  {
    hide Distinct;
    AtTheEnd(c.lru, id);
    AtTheEnd(c.inUse, id);
  }

  lemma RefCounts(c: Core, clients: multiset<nat>, next: nat, id: nat)
    requires CountsOk(c, clients) && DeletedOk(c, next) && id in c.handles
    ensures CountsOk(Referenced(c, id), clients + multiset{id}) && DeletedOk(Referenced(c, id), next)
  {
    hide Without, Distinct;
  }

  lemma RefUsage(c: Core, id: nat)
    requires ListsOk(c) && UsageOk(c) && id in c.handles
    ensures UsageOk(Referenced(c, id))
  {
    hide Distinct;
    var h, r := c.handles[id], Referenced(c, id);
    SameTotals(c, r.handles);
    if h.refs == 1 && h.inCache {
      NothingWithout(c.inUse, id);
      ChargesWithout(r.handles, c.lru, id);
      ChargesJoin(r.handles, c.inUse, [id]);
    }
  }

  lemma UnrefKeeps(c: Core, clients: multiset<nat>, next: nat, id: nat)
    requires CoreOk(c, clients, next) && id in clients
    ensures CoreOk(Unreferenced(c, id), clients - multiset{id}, next)
  {
    hide Distinct, UsageOk;
    UnrefLists(c, id);
    UnrefUsage(c, id);
    UnrefDeleted(c, next, id);
  }

  lemma UnrefDeleted(c: Core, next: nat, id: nat)
    requires DeletedOk(c, next) && id in c.handles && c.handles[id].refs > 0
    ensures DeletedOk(Unreferenced(c, id), next)
  {
    var r := Unreferenced(c, id);
    assert forall j :: 0 <= j < |c.deleted| ==> c.deleted[j] in c.deleted;
    assert forall x :: x in c.deleted + [id] <==> x in c.deleted || x == id;
  }

  lemma UnrefLists(c: Core, id: nat)
    requires ListsOk(c) && id in c.handles && c.handles[id].refs > if c.handles[id].inCache then 1 else 0
    ensures ListsOk(Unreferenced(c, id))
  {
    hide Distinct;
    AtTheEnd(c.lru, id);
    AtTheEnd(c.inUse, id);
  }

  lemma UnrefUsage(c: Core, id: nat)
    requires ListsOk(c) && UsageOk(c) && id in c.handles && c.handles[id].refs > if c.handles[id].inCache then 1 else 0
    ensures UsageOk(Unreferenced(c, id))
  {
    hide Distinct;
    var h, r := c.handles[id], Unreferenced(c, id);
    SameTotals(c, r.handles);
    if h.refs == 2 && h.inCache {
      NothingWithout(c.lru, id);
      ChargesWithout(r.handles, c.inUse, id);
      ChargesJoin(r.handles, c.lru, [id]);
    }
  }

  lemma ErasableCounts(c: Core, clients: multiset<nat>, id: nat)
    requires CountsOk(c, clients) && id in c.handles
    ensures c.handles[id].refs > 0
  {
  }

  lemma EraseCounts(c: Core, clients: multiset<nat>, id: nat)
    requires CountsOk(c, clients) && id in c.handles && c.handles[id].inCache
    ensures CountsOk(Erased(c, id), clients)
  {
    hide Without;
  }

  lemma EraseKeeps(c: Core, clients: multiset<nat>, next: nat, id: nat)
    requires CoreOk(c, clients, next) && id in c.handles && c.handles[id].inCache
    ensures CoreOk(Erased(c, id), clients, next)
  {
    hide Distinct, UsageOk, CountsOk;
    var u := Unlisted(c, id);
    assert c.handles[id].refs > 0 by { ErasableCounts(c, clients, id); }
    UnlistKeeps(c, id);
    assert DeletedOk(u, next);
    UnrefDeleted(u, next, id);
    UnrefLists(u, id);
    UnrefUsage(u, id);
    hide ListsOk, DeletedOk, Charges;
    assert Erased(c, id) == Unreferenced(u, id);
    assert CountsOk(Erased(c, id), clients) by { EraseCounts(c, clients, id); }
  }

  lemma UnlistKeeps(c: Core, id: nat)
    requires ListsOk(c) && UsageOk(c) && id in c.handles && c.handles[id].inCache
    ensures ListsOk(Unlisted(c, id)) && UsageOk(Unlisted(c, id))
  {
    hide Distinct, Charges;
    AtTheEnd(c.lru, id);
    AtTheEnd(c.inUse, id);
    assert ListsOk(Unlisted(c, id));
    UnlistUsage(c, id);
  }

  lemma UnlistUsage(c: Core, id: nat)
    requires ListsOk(c) && UsageOk(c) && id in c.handles && c.handles[id].inCache
    ensures UsageOk(Unlisted(c, id))
  {
    hide Charges;
    var r := Unlisted(c, id);
    ChargesWithout(c.handles, c.lru, id);
    ChargesWithout(c.handles, c.inUse, id);
    assert id in c.lru <==> id !in c.inUse;
    hide ListsOk;
    forall x: nat
      ensures Charge(r.handles, x) == Charge(c.handles, x)
    {
    }
    SameCharges(c.handles, r.handles, r.lru);
    SameCharges(c.handles, r.handles, r.inUse);
  }

  lemma AddKeeps(c: Core, clients: multiset<nat>, next: nat, key: Bytes, hash: nat, charge: nat)
    requires CoreOk(c, clients, next)
    ensures CoreOk(Added(c, next, key, hash, charge), clients + multiset{next}, next + 1)
  {
    var r := Added(c, next, key, hash, charge);
    assert next !in c.handles && next !in c.deleted;
    SameTotals(c, r.handles);
    ChargesJoin(r.handles, c.inUse, [next]);
  }

  /** With no capacity the handle is the client's alone. */
  function Uncached(c: Core, id: nat, key: Bytes, hash: nat, charge: nat): Core {
    c.(handles := c.handles[id := LRUHandle(key, hash, charge, false, 1)])
  }

  lemma UncachedKeeps(c: Core, clients: multiset<nat>, next: nat, key: Bytes, hash: nat, charge: nat)
    requires CoreOk(c, clients, next)
    ensures CoreOk(Uncached(c, next, key, hash, charge), clients + multiset{next}, next + 1)
  {
    assert next !in c.handles && next !in c.deleted;
    SameTotals(c, Uncached(c, next, key, hash, charge).handles);
  }

  /** The charges of the oldest handles, and of the rest of them once the oldest is gone. */
  lemma ChargesOfOldest(c: Core, e: Core, j: nat)
    requires c.lru != [] && Distinct(c.lru) && e.lru == c.lru[1..] && e.handles == c.handles - {c.lru[0]}
    requires j <= |e.lru|
    ensures c.lru[..j + 1] == [c.lru[0]] + e.lru[..j]
    ensures Charges(c.handles, c.lru[..j + 1]) == Charge(c.handles, c.lru[0]) + Charges(e.handles, e.lru[..j])
  {
    assert c.lru[..j + 1][1..] == e.lru[..j];
    assert forall x :: x in e.lru[..j] ==> x in e.lru;
    SameCharges(c.handles, e.handles, e.lru[..j]);
  }

  /**
   * Eviction: the oldest unused handles go, none of those in use, and no more than needed; what is left fits, or nothing
   * unused is left.
   */
  ghost predicate EvictsOldest(c: Core, e: Core, k: nat, capacity: int) {
    && k <= |c.lru| && e.lru == c.lru[k..] && e.inUse == c.inUse && e.deleted == c.deleted + c.lru[..k]
    && e.usage == c.usage - Charges(c.handles, c.lru[..k])
    && e.handles == c.handles - Elements(c.lru[..k])
    && (e.usage <= capacity || e.lru == [])
    && forall j :: 0 <= j < k ==> c.usage - Charges(c.handles, c.lru[..j]) > capacity
  }

  lemma {:induction false} EvictionIsRight(c: Core, clients: multiset<nat>, next: nat, capacity: int) returns (k: nat)
    requires CoreOk(c, clients, next)
    ensures EvictsOldest(c, Evicted(c, capacity), k, capacity) && CoreOk(Evicted(c, capacity), clients, next)
    decreases |c.lru|
  {
    if c.usage <= capacity || c.lru == [] {
      k := 0;
      assert c.handles == c.handles - Elements(c.lru[..0]);
    } else {
      var id, e := c.lru[0], Erased(c, c.lru[0]);
      OldestErased(c);
      EraseKeeps(c, clients, next, id);
      hide Erased, CoreOk, EvictsOldest, Charges;
      var k0 := EvictionIsRight(e, clients, next, capacity);
      k := k0 + 1;
      OneMoreEvicted(c, e, Evicted(e, capacity), k0, capacity);
    }
  }

  lemma OneMoreEvicted(c: Core, e: Core, f: Core, k0: nat, capacity: int)
    requires c.lru != [] && Distinct(c.lru) && e.lru == c.lru[1..] && e.inUse == c.inUse
    requires e.deleted == c.deleted + [c.lru[0]] && e.handles == c.handles - {c.lru[0]}
    requires e.usage == c.usage - Charge(c.handles, c.lru[0]) && c.usage > capacity
    requires EvictsOldest(e, f, k0, capacity)
    ensures EvictsOldest(c, f, k0 + 1, capacity)
  {
    ChargesOfOldest(c, e, k0);
    assert Elements(c.lru[..k0 + 1]) == {c.lru[0]} + Elements(e.lru[..k0]);
    forall j | 0 <= j < k0 + 1
      ensures c.usage - Charges(c.handles, c.lru[..j]) > capacity
    {
      if j > 0 { ChargesOfOldest(c, e, j - 1); }
    }
  }

  // What the callers gave, and when they were done

  /** A call of Insert. */
  datatype Given = Given(key: Bytes, hash: nat, charge: nat)

  /** The calls of Insert so far, each of which made the handle of its number, and the handles released, in order. */
  datatype History = History(given: seq<Given>, released: seq<nat>)

  function GivenFor(h: LRUHandle): Given { Given(h.key, h.hash, h.charge) }

  /** The last place of a number. */
  function LastPlace(s: seq<nat>, x: nat): (r: int)
    ensures -1 <= r < |s| && (r >= 0 <==> x in s) && (r >= 0 ==> s[r] == x) && forall k :: r < k < |s| ==> s[k] != x
  {
    if s == [] then -1 else if s[|s| - 1] == x then |s| - 1 else LastPlace(s[..|s| - 1], x)
  }

  /** Each was released, and the later ones later. */
  ghost predicate ByRelease(list: seq<nat>, released: seq<nat>) {
    && (forall i :: 0 <= i < |list| ==> list[i] in released)
    && forall i, j :: 0 <= i < j < |list| ==> LastPlace(released, list[i]) < LastPlace(released, list[j])
  }

  /** Every handle has the key, hash and charge it was given; those unused are in the order of their last release. */
  ghost predicate HistoryOk(c: Core, next: nat, h: History) {
    && |h.given| == next
    && (forall id :: id in c.handles ==> id < next && GivenFor(c.handles[id]) == h.given[id])
    && ByRelease(c.lru, h.released)
  }

  /** The handles in the cache. */
  ghost function Cached(c: Core): set<nat> {
    set id | id in c.handles && c.handles[id].inCache
  }

  lemma DifferentReleases(list: seq<nat>, released: seq<nat>)
    requires ByRelease(list, released)
    ensures Distinct(list)
  {
    hide LastPlace;
    forall i, j | 0 <= i < j < |list|
      ensures list[i] != list[j]
    {
      assert LastPlace(released, list[i]) < LastPlace(released, list[j]);
    }
  }

  lemma ByReleaseDropped(list: seq<nat>, released: seq<nat>, k: nat)
    requires ByRelease(list, released) && k < |list|
    ensures ByRelease(list[..k] + list[k + 1..], released)
  {
    hide LastPlace;
    var w := list[..k] + list[k + 1..];
    assert forall i :: 0 <= i < |w| ==> w[i] == list[if i < k then i else i + 1];
    forall i, j | 0 <= i < j < |w|
      ensures LastPlace(released, w[i]) < LastPlace(released, w[j])
    {
      var a, b := if i < k then i else i + 1, if j < k then j else j + 1;
      assert LastPlace(released, list[a]) < LastPlace(released, list[b]);
    }
  }

  lemma ByReleaseWithout(list: seq<nat>, released: seq<nat>, id: nat)
    requires ByRelease(list, released)
    ensures ByRelease(Without(list, id), released)
  {
    assert Distinct(list) by { DifferentReleases(list, released); }
    hide ByRelease, Without;
    if id in list {
      var k :| 0 <= k < |list| && list[k] == id;
      WithoutAt(list, k);
      ByReleaseDropped(list, released, k);
    } else {
      NothingWithout(list, id);
    }
  }

  /** The newest of the unused handles is the one released last. */
  lemma ReleasedAtTheEnd(list: seq<nat>, released: seq<nat>, id: nat)
    requires ByRelease(list, released) && id !in list
    ensures ByRelease(list, released + [id]) && ByRelease(list + [id], released + [id])
  {
    var r := released + [id];
    assert r[..|r| - 1] == released;
    forall i | 0 <= i < |list|
      ensures LastPlace(r, list[i]) == LastPlace(released, list[i])
    {
      assert list[i] in list;
    }
  }

  lemma RefHistory(c: Core, next: nat, h: History, id: nat)
    requires HistoryOk(c, next, h) && id in c.handles
    ensures HistoryOk(Referenced(c, id), next, h) && Cached(Referenced(c, id)) == Cached(c)
  {
    hide ByRelease, Without;
    ByReleaseWithout(c.lru, h.released, id);
  }

  lemma UnrefHistory(c: Core, clients: multiset<nat>, next: nat, h: History, id: nat)
    requires CoreOk(c, clients, next) && HistoryOk(c, next, h) && id in clients
    ensures HistoryOk(Unreferenced(c, id), next, h.(released := h.released + [id]))
    ensures Cached(Unreferenced(c, id)) == Cached(c)
  {
    hide ByRelease, DeletedOk, UsageOk, Without, Distinct;
    assert c.handles[id].refs > if c.handles[id].inCache then 1 else 0;
    NothingWithout(c.lru, id);
    ReleasedAtTheEnd(c.lru, h.released, id);
  }

  lemma EraseHistory(c: Core, next: nat, h: History, id: nat)
    requires HistoryOk(c, next, h) && id in c.handles && c.handles[id].refs > 0
    ensures HistoryOk(Erased(c, id), next, h) && Cached(Erased(c, id)) == Cached(c) - {id}
  {
    hide ByRelease, Without;
    ByReleaseWithout(c.lru, h.released, id);
  }

  /** The charges callers gave for those below a number that are in a set. */
  ghost function TotalGiven(given: seq<Given>, ids: set<nat>, n: nat): nat
    requires n <= |given|
  {
    if n == 0 then 0 else TotalGiven(given, ids, n - 1) + if n - 1 in ids then given[n - 1].charge else 0
  }

  lemma {:induction false} ChargesAreTotal(c: Core, given: seq<Given>, list: seq<nat>, n: nat)
    requires Distinct(list) && n <= |given|
    requires forall id :: id in list ==> id < n && id in c.handles && GivenFor(c.handles[id]) == given[id]
    ensures Charges(c.handles, list) == TotalGiven(given, Elements(list), n)
    decreases n
  {
    assert list != [] ==> list[0] in list;
    if n > 0 {
      var last: nat := n - 1;
      var w := Without(list, last);
      WithoutMembers(list, last);
      ChargesWithout(c.handles, list, last);
      ChargesAreTotal(c, given, w, n - 1);
      SameTotal(given, Elements(w), Elements(list), n - 1);
    }
  }

  lemma {:induction false} SameTotal(given: seq<Given>, a: set<nat>, b: set<nat>, n: nat)
    requires n <= |given| && forall id: nat :: id < n ==> (id in a <==> id in b)
    ensures TotalGiven(given, a, n) == TotalGiven(given, b, n)
  {
    if n > 0 { SameTotal(given, a, b, n - 1); }
  }

  /** The usage of a cache is the sum of the charges that callers gave for the handles in it. */
  lemma UsageIsGiven(c: Core, clients: multiset<nat>, next: nat, h: History)
    requires CoreOk(c, clients, next) && HistoryOk(c, next, h)
    ensures c.usage == TotalGiven(h.given, Cached(c), next)
  {
    hide Charges, Total, CountsOk, DeletedOk, ByRelease;
    var list := c.lru + c.inUse;
    ChargesJoin(c.handles, c.lru, c.inUse);
    assert Distinct(list) by {
      forall i, j | 0 <= i < j < |list|
        ensures list[i] != list[j]
      {
        assert i < |c.lru| ==> list[i] in c.lru;
        assert j >= |c.lru| ==> list[j] in c.inUse;
      }
    }
    ChargesAreTotal(c, h.given, list, next);
    assert Elements(list) == Cached(c);
  }

  // The hash table

  lemma SameTable(c: Core, r: Core, refs: set<Ref>)
    requires TableOk(c, refs)
    requires forall id :: id in c.handles && c.handles[id].inCache ==> id in r.handles
    requires forall id :: id in r.handles ==>
               id in c.handles && r.handles[id].(refs := 0) == c.handles[id].(refs := 0)
    ensures TableOk(r, refs)
  {
  }

  lemma ErasedFromTable(c: Core, refs: set<Ref>, id: nat)
    requires TableOk(c, refs) && id in c.handles && c.handles[id].refs > 0
    ensures TableOk(Erased(c, id), refs - {RefOf(c, id)})
  {
    var r := Erased(c, id);
    assert forall x :: x in r.handles && x != id ==> x in c.handles && r.handles[x] == c.handles[x];
    assert id in r.handles ==> !r.handles[id].inCache;
  }

  lemma AddedToTable(c: Core, refs: set<Ref>, id: nat, key: Bytes, hash: nat, charge: nat)
    requires TableOk(c, refs) && id !in c.handles
    ensures TableOk(Added(c, id, key, hash, charge), refs + {Ref(id, key, hash)})
  {
  }

  lemma UncachedTable(c: Core, refs: set<Ref>, id: nat, key: Bytes, hash: nat, charge: nat)
    requires TableOk(c, refs) && id !in c.handles
    ensures TableOk(Uncached(c, id, key, hash, charge), refs)
  {
  }

  /** The handle the cache has for a key: there is at most one. */
  ghost predicate IsCached(c: Core, id: nat, key: Bytes, hash: nat) {
    id in c.handles && c.handles[id].inCache && c.handles[id].hash == hash && c.handles[id].key == key
  }

  ghost predicate CachedAs(c: Core, was: Option<nat>, key: Bytes, hash: nat) {
    forall id: nat :: IsCached(c, id, key, hash) <==> was == Some(id)
  }

  function IdOf(r: Option<Ref>): Option<nat> { if r.Some? then Some(r.value.id) else None }

  lemma TableFinds(c: Core, refs: set<Ref>, key: Bytes, hash: nat)
    requires TableOk(c, refs) && Unique(refs)
    ensures CachedAs(c, IdOf(MatchIn(refs, key, hash)), key, hash)
  {
    var m := MatchIn(refs, key, hash);
    assert m.Some? ==> IsCached(c, m.value.id, key, hash);
    forall id | IsCached(c, id, key, hash)
      ensures MatchIn(refs, key, hash) == Some(RefOf(c, id))
    {
      assert RefOf(c, id) in refs && Matches(RefOf(c, id), key, hash);
    }
  }

  lemma ReleasedTable(c: Core, clients: multiset<nat>, refs: set<Ref>, id: nat)
    requires TableOk(c, refs) && CountsOk(c, clients) && id in clients
    ensures TableOk(Unreferenced(c, id), refs)
  {
    var r := Unreferenced(c, id);
    assert c.handles[id].refs == 1 ==> !c.handles[id].inCache;
    SameTable(c, r, refs);
  }

  lemma ErasedIsGone(c: Core, id: nat, key: Bytes, hash: nat)
    requires id in c.handles && c.handles[id].refs > 0 && forall x :: IsCached(c, x, key, hash) ==> x == id
    ensures forall x :: !IsCached(Erased(c, id), x, key, hash)
  {
    var r := Erased(c, id);
    forall x
      ensures !IsCached(r, x, key, hash)
    {
      assert IsCached(r, x, key, hash) ==> IsCached(c, x, key, hash) && x != id;
    }
  }

  /** A new handle and what becomes of the one it replaces. */
  function Placed(c: Core, id: nat, key: Bytes, hash: nat, charge: nat, capacity: nat, was: Option<nat>): Core {
    if capacity == 0 then Uncached(c, id, key, hash, charge)
    else
      var a := Added(c, id, key, hash, charge);
      if was.Some? && was.value in a.handles && a.handles[was.value].refs > 0 then Erased(a, was.value) else a
  }

  /** The hash table once a handle is put in. */
  function RefsAfter(refs: set<Ref>, was: Option<Ref>, h: Ref, capacity: nat): set<Ref> {
    if capacity == 0 then refs else refs - (if was.Some? then {was.value} else {}) + {h}
  }

  lemma PlaceKeeps(c: Core, clients: multiset<nat>, next: nat, refs: set<Ref>, m: Option<Ref>, key: Bytes, hash: nat,
                   charge: nat, capacity: nat)
    requires CoreOk(c, clients, next) && TableOk(c, refs)
    requires m.Some? ==> m.value in refs
    ensures var p := Placed(c, next, key, hash, charge, capacity, IdOf(m));
            CacheOk(p, clients + multiset{next}, next + 1, RefsAfter(refs, m, Ref(next, key, hash), capacity))
    ensures m.Some? ==> var a := Added(c, next, key, hash, charge); m.value.id in a.handles && a.handles[m.value.id].refs > 0
  {
    if m.Some? { CachedRef(c, clients, next, refs, m.value); }
    hide CoreOk, TableOk;
    if capacity == 0 {
      UncachedKeeps(c, clients, next, key, hash, charge);
      UncachedTable(c, refs, next, key, hash, charge);
    } else {
      AddKeeps(c, clients, next, key, hash, charge);
      AddedToTable(c, refs, next, key, hash, charge);
      hide Erased, Uncached;
      if m.Some? {
        StillThere(c, next, key, hash, charge, m.value);
        hide Added, RefOf;
        ReplaceKeeps(Added(c, next, key, hash, charge), clients + multiset{next}, next + 1, refs, m.value,
                     Ref(next, key, hash));
      }
    }
  }

  /** The handle a new one of its key takes the place of. */
  function Replaced(was: Option<nat>, capacity: nat): Option<nat> { if capacity > 0 then was else None }

  /** The unused handles without the one replaced. */
  function Rest(c: Core, out: Option<nat>): seq<nat> { if out.Some? then Without(c.lru, out.value) else c.lru }

  /** The usage when the new handle is in, before eviction. */
  function UsageWith(c: Core, charge: nat, capacity: nat, out: Option<nat>): int {
    c.usage + (if capacity > 0 then charge else 0) - if out.Some? then Charge(c.handles, out.value) else 0
  }

  ghost function CachedWith(c: Core, id: nat, capacity: nat, out: Option<nat>): set<nat> {
    Cached(c) + (if capacity > 0 then {id} else {}) - if out.Some? then {out.value} else {}
  }

  /**
   * An insertion: the new handle has what it was given and is, but for a capacity of zero, the one cached for its key. The
   * charge is added and that of the handle replaced taken off; then the oldest of the other unused handles go, as many as
   * it takes to fit and no more. All others stay as they are.
   */
  ghost predicate Inserts(c: Core, d: Core, id: nat, given: Given, capacity: nat, out: Option<nat>, k: nat) {
    var rest := Rest(c, out);
    && k <= |rest| && d.lru == rest[k..]
    && id in d.handles && GivenFor(d.handles[id]) == given
    && (capacity > 0 ==> CachedAs(d, Some(id), given.key, given.hash))
    && Cached(d) == CachedWith(c, id, capacity, out) - Elements(rest[..k])
    && d.usage == UsageWith(c, given.charge, capacity, out) - Charges(c.handles, rest[..k])
    && (d.usage <= capacity || d.lru == [])
    && (forall j :: 0 <= j < k ==> UsageWith(c, given.charge, capacity, out) - Charges(c.handles, rest[..j]) > capacity)
    && forall x :: x in c.handles && out != Some(x) && x !in rest[..k] ==> x in d.handles && d.handles[x] == c.handles[x]
  }

  lemma InsertIsRight(c: Core, clients: multiset<nat>, next: nat, d: Core, given: Given, capacity: nat, was: Option<nat>,
                      k: nat)
    requires CoreOk(c, clients, next) && CachedAs(c, was, given.key, given.hash)
    requires EvictsOldest(Placed(c, next, given.key, given.hash, given.charge, capacity, was), d, k, capacity)
    ensures Inserts(c, d, next, given, capacity, Replaced(was, capacity), k)
  {
    hide CoreOk, CachedAs, EvictsOldest, Placed, Charges, Without, Cached;
    var p, out := Placed(c, next, given.key, given.hash, given.charge, capacity, was), Replaced(was, capacity);
    PlacedIsRight(c, clients, next, given, capacity, was);
    EvictedIsRight(c, p, d, next, given, capacity, out, k);
  }

  /** The same before eviction. */
  ghost predicate Places(c: Core, p: Core, id: nat, given: Given, capacity: nat, out: Option<nat>) {
    && p.lru == Rest(c, out) && id in p.handles && GivenFor(p.handles[id]) == given
    && (capacity > 0 ==> CachedAs(p, Some(id), given.key, given.hash))
    && Cached(p) == CachedWith(c, id, capacity, out)
    && p.usage == UsageWith(c, given.charge, capacity, out)
    && (forall x :: x in c.handles && out != Some(x) ==> x in p.handles && p.handles[x] == c.handles[x])
    && (forall x :: x in p.lru ==> x in c.handles && x != id && out != Some(x))
  }

  lemma PlacedIsRight(c: Core, clients: multiset<nat>, next: nat, given: Given, capacity: nat, was: Option<nat>)
    requires CoreOk(c, clients, next) && CachedAs(c, was, given.key, given.hash)
    ensures Places(c, Placed(c, next, given.key, given.hash, given.charge, capacity, was), next, given, capacity,
                   Replaced(was, capacity))
  {
    hide Without, Distinct, UsageOk, Erased;
    assert was.Some? ==> IsCached(c, was.value, given.key, given.hash);
    if was.Some? {
      AtTheEnd(c.lru, was.value);
      ErasedParts(Added(c, next, given.key, given.hash, given.charge), was.value);
    }
  }

  lemma ErasedParts(c: Core, id: nat)
    requires id in c.handles && c.handles[id].refs > 0
    ensures var e := Erased(c, id);
            && e.lru == Without(c.lru, id) && e.usage == c.usage - c.handles[id].charge && Cached(e) == Cached(c) - {id}
            && forall x :: x != id ==>
                 (x in e.handles <==> x in c.handles) && (x in e.handles ==> e.handles[x] == c.handles[x])
  {
    hide Without;
  }

  lemma EvictedIsRight(c: Core, p: Core, d: Core, id: nat, given: Given, capacity: nat, out: Option<nat>, k: nat)
    requires Places(c, p, id, given, capacity, out) && EvictsOldest(p, d, k, capacity)
    ensures Inserts(c, d, id, given, capacity, out, k)
  {
    hide Charges, Without, Rest;
    forall j | 0 <= j <= k
      ensures Charges(p.handles, p.lru[..j]) == Charges(c.handles, p.lru[..j])
    {
      assert forall x :: x in p.lru[..j] ==> x in p.lru;
      SameCharges(p.handles, c.handles, p.lru[..j]);
    }
    assert p.lru[..k] == Rest(c, out)[..k];
  }

  lemma PlaceHistory(c: Core, clients: multiset<nat>, next: nat, refs: set<Ref>, h: History, given: Given, capacity: nat,
                     was: Option<nat>)
    requires CacheOk(c, clients, next, refs) && HistoryOk(c, next, h)
    ensures HistoryOk(Placed(c, next, given.key, given.hash, given.charge, capacity, was), next + 1,
                      h.(given := h.given + [given]))
  {
    hide ByRelease, Erased, TableOk, ListsOk, CountsOk, UsageOk;
    var a, more := Added(c, next, given.key, given.hash, given.charge), h.(given := h.given + [given]);
    assert HistoryOk(a, next + 1, more);
    if was.Some? && was.value in a.handles && a.handles[was.value].refs > 0 { EraseHistory(a, next + 1, more, was.value); }
  }

  lemma StillThere(c: Core, next: nat, key: Bytes, hash: nat, charge: nat, r: Ref)
    requires r.id in c.handles && c.handles[r.id].inCache && c.handles[r.id].refs > 0 && r == RefOf(c, r.id)
    requires r.id < next
    ensures var a := Added(c, next, key, hash, charge);
            r.id in a.handles && a.handles[r.id].inCache && a.handles[r.id].refs > 0 && r == RefOf(a, r.id)
    ensures r != Ref(next, key, hash)
  {
  }

  lemma PlaceFinds(c: Core, clients: multiset<nat>, next: nat, refs: set<Ref>, key: Bytes, hash: nat, charge: nat,
                   capacity: nat)
    returns (m: Option<Ref>)
    requires CacheOk(c, clients, next, refs) && Unique(refs)
    ensures m == MatchIn(refs, key, hash) && CachedAs(c, IdOf(m), key, hash) && (m.Some? ==> m.value in refs)
    ensures var p := Placed(c, next, key, hash, charge, capacity, IdOf(m));
            CacheOk(p, clients + multiset{next}, next + 1, RefsAfter(refs, m, Ref(next, key, hash), capacity))
    ensures m.Some? ==> var a := Added(c, next, key, hash, charge); m.value.id in a.handles && a.handles[m.value.id].refs > 0
  {
    m := MatchIn(refs, key, hash);
    TableFinds(c, refs, key, hash);
    assert m.Some? ==> m.value in refs;
    hide MatchIn, Unique, CachedAs, Placed, Added, RefsAfter, CoreOk, TableOk;
    PlaceKeeps(c, clients, next, refs, m, key, hash, charge, capacity);
  }

  lemma ReplaceKeeps(a: Core, clients: multiset<nat>, next: nat, refs: set<Ref>, m: Ref, h: Ref)
    requires CoreOk(a, clients, next) && TableOk(a, refs + {h}) && m != h
    requires m.id in a.handles && a.handles[m.id].inCache && a.handles[m.id].refs > 0 && m == RefOf(a, m.id)
    ensures CoreOk(Erased(a, m.id), clients, next) && TableOk(Erased(a, m.id), refs - {m} + {h})
  {
    hide CoreOk, TableOk, Erased;
    EraseKeeps(a, clients, next, m.id);
    ErasedFromTable(a, refs + {h}, m.id);
    assert refs + {h} - {m} == refs - {m} + {h};
  }

  lemma CachedRef(c: Core, clients: multiset<nat>, next: nat, refs: set<Ref>, r: Ref)
    requires CoreOk(c, clients, next) && TableOk(c, refs) && r in refs
    ensures r.id in c.handles && c.handles[r.id].inCache && c.handles[r.id].refs > 0 && r == RefOf(c, r.id)
    ensures r.id < next
    ensures next !in c.handles
  {
  }

  lemma EmptyIsOk()
    ensures CoreOk(Core(map[], [], [], 0, []), multiset{}, 0) && TableOk(Core(map[], [], [], 0, []), {})
  {
  }

  // The cache

  class LRUCache {
    var capacity: nat
    var usage: int
    var handles: map<nat, LRUHandle>
    const lists: ListPair
    const table: HandleTable
    var next: nat

    ghost var deleted: seq<nat>
    ghost var clients: multiset<nat>
    ghost var history: History

    ghost function State(): Core
      reads this, lists
    {
      Core(handles, lists.lru, lists.inUse, usage, deleted)
    }

    /** The handles made are numbered from 0 on, and each has its links. */
    ghost predicate LinksOk()
      reads this, lists.Repr()
    {
      lists.Valid() && forall id: nat :: id in lists.links <==> id < next
    }

    ghost predicate Valid()
      reads this, table, lists.Repr()
    {
      && table.Valid() && LinksOk() && CacheOk(State(), clients, next, table.Refs())
      && HistoryOk(State(), next, history)
    }

    ghost function Repr(): set<object>
      reads lists`links
    {
      {this, table} + lists.Repr()
    }

    constructor (capacity: nat)
      ensures Valid() && fresh(Repr()) && this.capacity == capacity
      ensures State() == Core(map[], [], [], 0, []) && clients == multiset{} && next == 0
      ensures history == History([], [])
    {
      hide CoreOk, TableOk, ListPair.Valid, HandleTable.Valid, HandleTable.Refs;
      this.capacity, usage, handles, next := capacity, 0, map[], 0;
      deleted, clients, history := [], multiset{}, History([], []);
      table := new HandleTable();
      lists := new ListPair();
      EmptyIsOk();
    }

    /** The links are objects of their own. */
    lemma ListsApart()
      ensures this !in lists.Repr() && table !in lists.Repr() && lists in lists.Repr()
      ensures forall o :: o in lists.Repr() ==> allocated(o)
    {
    }

    /** A handle with the cache's reference is on one of the lists: unused if it has no other. */
    ghost predicate OnList(id: nat)
      requires id in handles
      reads this, lists
    {
      handles[id].inCache ==> Listed(State(), id)
    }

    method RefHandle(id: nat)
      requires lists.Valid() && id in handles && OnList(id)
      modifies this`handles, lists.Repr()
      ensures lists.Valid() && lists.links == old(lists.links) && State() == Referenced(old(State()), id)
    {
      hide ListPair.Valid, ListPair.Repr, Without;
      ListsApart();
      lists.Parts();
      var h := handles[id];
      if h.refs == 1 && h.inCache {
        lists.Remove(id);
        lists.Append(lists.inUseHead, id);
      }
      handles := handles[id := h.(refs := h.refs + 1)];
    }

    method Unref(id: nat)
      requires lists.Valid() && id in handles && handles[id].refs > 0 && (handles[id].refs == 2 ==> OnList(id))
      modifies this`handles, this`deleted, lists.Repr()
      ensures lists.Valid() && lists.links == old(lists.links) && State() == Unreferenced(old(State()), id)
    {
      hide ListPair.Valid, ListPair.Repr, Without;
      ListsApart();
      lists.Parts();
      var h := handles[id].(refs := handles[id].refs - 1);
      handles := handles[id := h];
      if h.refs == 0 {
        deleted := deleted + [id];
        handles := handles - {id};
      } else if h.inCache && h.refs == 1 {
        lists.Remove(id);
        lists.Append(lists.lruHead, id);
      }
    }

    method FinishErase(e: Option<Ref>) returns (erased: bool)
      requires lists.Valid()
      requires e.Some? ==>
        e.value.id in handles && handles[e.value.id].inCache && handles[e.value.id].refs > 0 && OnList(e.value.id)
      modifies this`handles, this`usage, this`deleted, lists.Repr()
      ensures lists.Valid() && lists.links == old(lists.links) && erased == e.Some?
      ensures State() == match e { case None => old(State()) case Some(r) => Erased(old(State()), r.id) }
    {
      hide ListPair.Valid, ListPair.Repr, Without, Unreferenced;
      ListsApart();
      if e.Some? {
        var id := e.value.id;
        lists.Remove(id);
        handles := handles[id := handles[id].(inCache := false)];
        usage := usage - handles[id].charge;
        Unref(id);
      }
      erased := e.Some?;
    }

    lemma CachedIsOnList(id: nat)
      requires CoreOk(State(), clients, next) && id in handles
      ensures OnList(id) && handles[id].refs > 0
    {
    }

    /** Finds the one handle for a key, and the caller holds it. */
    method Lookup(key: Bytes, hash: nat) returns (handle: Option<nat>)
      requires Valid()
      modifies this, lists.Repr()
      ensures Valid() && capacity == old(capacity) && next == old(next) && table.Refs() == old(table.Refs())
      ensures lists.links == old(lists.links)
      ensures history == old(history) && Cached(State()) == Cached(old(State()))
      ensures match handle {
                case None =>
                  (forall id :: !IsCached(old(State()), id, key, hash)) && State() == old(State()) && clients == old(clients)
                case Some(id) =>
                  && IsCached(old(State()), id, key, hash) && State() == Referenced(old(State()), id)
                  && clients == old(clients) + multiset{id}
              }
    {
      hide CoreOk, TableOk, HistoryOk, Cached, Referenced, MatchIn, Unique, IsCached, HandleTable.Valid, HandleTable.Refs;
      hide ListPair.Valid, ListPair.Repr;
      ListsApart();
      TableIsUnique();
      var e := table.Lookup(key, hash);
      ghost var c := State();
      Found(c, clients, next, table.Refs(), key, hash);
      if e.None? { return None; }
      var id := e.value.id;
      CachedIsOnList(id);
      RefHistory(c, next, history, id);
      RefHandle(id);
      clients := clients + multiset{id};
      handle := Some(id);
    }

    method Release(handle: nat)
      requires Valid() && handle in clients
      modifies this, lists.Repr()
      ensures Valid() && capacity == old(capacity) && next == old(next) && table.Refs() == old(table.Refs())
      ensures lists.links == old(lists.links)
      ensures State() == Unreferenced(old(State()), handle) && clients == old(clients) - multiset{handle}
      ensures history == old(history).(released := old(history).released + [handle])
      ensures Cached(State()) == Cached(old(State()))
    {
      hide CoreOk, TableOk, HistoryOk, Cached, Unreferenced, HandleTable.Valid, HandleTable.Refs;
      hide ListPair.Valid, ListPair.Repr;
      ListsApart();
      Released(State(), clients, next, table.Refs(), handle);
      HeldIsOnList(handle);
      UnrefHistory(State(), clients, next, history, handle);
      Unref(handle);
      clients, history := clients - multiset{handle}, history.(released := history.released + [handle]);
    }

    lemma HeldIsOnList(id: nat)
      requires CoreOk(State(), clients, next) && id in clients
      ensures id in handles && OnList(id) && handles[id].refs > 0
    {
    }

    /** Takes the handle for a key out of the cache; its deleter waits for its last client. */
    method Erase(key: Bytes, hash: nat)
      requires Valid()
      modifies this, table, lists.Repr()
      ensures Valid() && capacity == old(capacity) && next == old(next) && clients == old(clients)
      ensures lists.links == old(lists.links)
      ensures history == old(history) && forall id :: !IsCached(State(), id, key, hash)
      ensures forall id :: id in Cached(State()) <==> id in Cached(old(State())) && !IsCached(old(State()), id, key, hash)
      ensures
        || (State() == old(State()) && forall id :: !IsCached(State(), id, key, hash))
        || exists id :: IsCached(old(State()), id, key, hash) && State() == Erased(old(State()), id)
    {
      hide CoreOk, TableOk, HistoryOk, Cached, Erased, MatchIn, Unique, IsCached, HandleTable.Valid, HandleTable.Refs;
      hide ListPair.Valid, ListPair.Repr;
      ListsApart();
      TableIsUnique();
      ghost var c, refs := State(), table.Refs();
      FoundAndErased(c, clients, next, refs, key, hash);
      OthersStayCached(c, clients, next, history, refs, key, hash);
      var e := table.Remove(key, hash);
      if e.Some? { CachedIsOnList(e.value.id); } else { assert table.Refs() == refs; }
      var erased := FinishErase(e);
    }

    /** A step of the loops below: the oldest unused handle goes. */
    method RemoveOldest()
      requires Valid() && lists.lru != []
      modifies this, table, lists.Repr()
      ensures Valid() && capacity == old(capacity) && next == old(next) && clients == old(clients)
      ensures lists.links == old(lists.links) && history == old(history)
      ensures var id := old(lists.lru[0]);
              id in old(handles) && old(handles)[id].refs == 1 && State() == Erased(old(State()), id)
    {
      hide CoreOk, TableOk, HistoryOk, Erased, MatchIn, Unique, HandleTable.Valid, HandleTable.Refs;
      hide ListPair.Valid, ListPair.Repr;
      ListsApart();
      TableIsUnique();
      ghost var c, refs := State(), table.Refs();
      var id := lists.Oldest();
      OldestIsFound(c, clients, next, refs);
      EraseHistory(c, next, history, id);
      var e := table.Remove(handles[id].key, handles[id].hash);
      CachedIsOnList(id);
      var erased := FinishErase(e);
      assert erased;
    }

    /** A new handle, in the cache and on the list of those in use. */
    method Add(id: nat, key: Bytes, hash: nat, charge: nat)
      requires lists.Valid() && id in lists.links && id !in lists.lru && id !in lists.inUse
      modifies this`handles, this`usage, lists.Repr()
      ensures lists.Valid() && lists.links == old(lists.links)
      ensures State() == Added(old(State()), id, key, hash, charge) && id in lists.inUse
    {
      hide ListPair.Valid, ListPair.Repr;
      ListsApart();
      handles := handles[id := LRUHandle(key, hash, charge, true, 2)];
      lists.Append(lists.inUseHead, id);
      usage := usage + charge;
    }

    /** The number of the next handle, and its links. */
    method NewHandle() returns (handle: nat)
      requires LinksOk()
      modifies lists`links
      ensures lists.Valid() && fresh(lists.Repr() - old(lists.Repr()))
      ensures lists.lru == old(lists.lru) && lists.inUse == old(lists.inUse)
      ensures handle == next && handle !in lists.lru && handle !in lists.inUse
      ensures forall id: nat :: id in lists.links <==> id <= handle
    {
      hide ListPair.Valid, ListPair.Repr;
      NextIsNew();
      handle := next;
      lists.NewLink(handle);
    }

    /** The first half of Insert: the new handle goes in, and the one with its key out. */
    method Place(key: Bytes, hash: nat, charge: nat) returns (handle: nat, ghost was: Option<nat>)
      requires Valid()
      modifies this, table, lists.Repr()
      ensures Valid() && capacity == old(capacity) && fresh(lists.Repr() - old(lists.Repr()))
      ensures handle == old(next) && next == handle + 1 && clients == old(clients) + multiset{handle}
      ensures history == old(history).(given := old(history).given + [Given(key, hash, charge)])
      ensures CachedAs(old(State()), was, key, hash)
      ensures State() == Placed(old(State()), handle, key, hash, charge, capacity, was)
    {
      hide CacheOk, HistoryOk, Erased, MatchIn, Unique, CachedAs, HandleTable.Valid, HandleTable.Refs, Placed, Added, RefsAfter;
      hide ListPair.Valid, ListPair.Repr, Replaceable, IdOf;
      ListsApart();
      TableIsUnique();
      ghost var c := State();
      ghost var m := PlaceFinds(c, clients, next, table.Refs(), key, hash, charge, capacity);
      was := IdOf(m);
      PlaceHistory(c, clients, next, table.Refs(), history, Given(key, hash, charge), capacity, was);
      handle := NewHandle();
      if m.Some? { PlaceListed(c, clients, next, table.Refs(), m.value, key, hash, charge); }
      PlaceHandle(handle, key, hash, charge, m);
      history := history.(given := history.given + [Given(key, hash, charge)]);
    }

    method PlaceHandle(id: nat, key: Bytes, hash: nat, charge: nat, ghost m: Option<Ref>)
      requires table.Valid() && lists.Valid() && id in lists.links && id !in lists.lru && id !in lists.inUse
      requires m == MatchIn(table.Refs(), key, hash)
      requires m.Some? ==> Replaceable(Added(State(), id, key, hash, charge), m.value.id)
      modifies this, table, lists.Repr()
      ensures table.Valid() && lists.Valid() && lists.links == old(lists.links) && capacity == old(capacity)
      ensures next == id + 1 && clients == old(clients) + multiset{id} && history == old(history)
      ensures State() == Placed(old(State()), id, key, hash, charge, capacity, IdOf(m))
      ensures table.Refs() == RefsAfter(old(table.Refs()), m, Ref(id, key, hash), capacity)
    {
      hide Unreferenced, Unlisted, MatchIn, HandleTable.Valid, HandleTable.Refs, ListPair.Valid, ListPair.Repr;
      ListsApart();
      if capacity > 0 {
        Add(id, key, hash, charge);
        var e := table.Insert(Ref(id, key, hash));
        var erased := FinishErase(e);
      } else {
        handles := handles[id := LRUHandle(key, hash, charge, false, 1)];
      }
      next := id + 1;
      clients := clients + multiset{id};
    }

    /**
     * Puts a handle in, which the caller holds; the handle with the same key is taken out, and then the oldest unused
     * ones until the usage fits.
     */
    method Insert(key: Bytes, hash: nat, charge: nat) returns (handle: nat, ghost was: Option<nat>, ghost k: nat)
      requires Valid()
      modifies this, table, lists.Repr()
      ensures Valid() && capacity == old(capacity) && fresh(lists.Repr() - old(lists.Repr()))
      ensures handle == old(next) && next == handle + 1 && clients == old(clients) + multiset{handle}
      ensures history == old(history).(given := old(history).given + [Given(key, hash, charge)])
      ensures CachedAs(old(State()), was, key, hash)
      ensures EvictsOldest(Placed(old(State()), handle, key, hash, charge, capacity, was), State(), k, capacity)
      ensures Inserts(old(State()), State(), handle, Given(key, hash, charge), capacity, Replaced(was, capacity), k)
    {
      hide CacheOk, HistoryOk, Inserts, Replaced, Erased, CachedAs, HandleTable.Valid, HandleTable.Refs, Placed;
      hide ListPair.Valid, ListPair.Repr, EvictsOldest, Evicted, Evictable;
      ghost var c, held, first := State(), clients, next;
      assert CoreOk(c, held, first) by { IsCoreOk(c, held, first, table.Refs()); }
      handle, was := Place(key, hash, charge);
      ghost var placed, links, told := State(), lists.links, history;
      k := EvictionFrom(placed, clients, next, table.Refs(), capacity);
      while usage > capacity && !lists.Empty()
        invariant Valid() && capacity == old(capacity) && next == handle + 1
        invariant clients == old(clients) + multiset{handle}
        invariant lists.links == links && history == told
        invariant Evictable(State()) && Evicted(State(), capacity) == Evicted(placed, capacity)
        decreases |lists.lru|
      {
        EvictOne(State(), clients, next, table.Refs(), capacity);
        RemoveOldest();
      }
      EvictedEnough(State(), clients, next, table.Refs(), capacity);
      InsertIsRight(c, held, first, State(), Given(key, hash, charge), capacity, was, k);
    }

    /** The sum of the charges of what is in the cache. */
    method TotalCharge() returns (charge: int)
      requires Valid()
      ensures charge == TotalGiven(history.given, Cached(State()), next)
    {
      UsageIsGiven(State(), clients, next, history);
      charge := usage;
    }

    /** Drops all that no client holds. */
    method Prune()
      requires Valid()
      modifies this, table, lists.Repr()
      ensures Valid() && capacity == old(capacity) && next == old(next) && clients == old(clients)
      ensures history == old(history)
      ensures lists.lru == [] && lists.inUse == old(lists.inUse) && deleted == old(deleted) + old(lists.lru)
      ensures handles == old(handles) - Elements(old(lists.lru))
    {
      hide CacheOk, HistoryOk, Erased, HandleTable.Valid, HandleTable.Refs, ListPair.Valid, ListPair.Repr, EvictsOldest;
      hide Evicted, Evictable;
      ghost var c, links := State(), lists.links;
      ghost var k := EvictionFrom(c, clients, next, table.Refs(), -1);
      UsageIsPositive(c, clients, next, table.Refs());
      while !lists.Empty()
        invariant Valid() && capacity == old(capacity) && next == old(next) && clients == old(clients)
        invariant lists.links == links && history == old(history)
        invariant Evictable(State()) && Evicted(State(), -1) == Evicted(c, -1)
        decreases |lists.lru|
      {
        UsageIsPositive(State(), clients, next, table.Refs());
        EvictOne(State(), clients, next, table.Refs(), -1);
        RemoveOldest();
      }
      EvictedEnough(State(), clients, next, table.Refs(), -1);
      AllEvicted(c, State(), k);
    }

    lemma NextIsNew()
      requires LinksOk()
      ensures next !in lists.links
    {
    }

    lemma TableIsUnique()
      requires table.Valid()
      ensures Unique(table.Refs())
    {
      MembersUnique(table.list);
    }
  }

  /** What the table finds for a key is the handle the cache has for it. */
  lemma Found(c: Core, clients: multiset<nat>, next: nat, refs: set<Ref>, key: Bytes, hash: nat)
    requires CacheOk(c, clients, next, refs) && Unique(refs)
    ensures match MatchIn(refs, key, hash)
            case None => forall id :: !IsCached(c, id, key, hash)
            case Some(r) =>
              && IsCached(c, r.id, key, hash) && r.id in c.handles && c.handles[r.id].refs > 0
              && CacheOk(Referenced(c, r.id), clients + multiset{r.id}, next, refs)
  {
    TableFinds(c, refs, key, hash);
    var m := MatchIn(refs, key, hash);
    if m.Some? {
      assert CachedAs(c, Some(m.value.id), key, hash) && IsCached(c, m.value.id, key, hash);
      RefKeeps(c, clients, next, m.value.id);
      SameTable(c, Referenced(c, m.value.id), refs);
    }
  }

  lemma IsCoreOk(c: Core, clients: multiset<nat>, next: nat, refs: set<Ref>)
    requires CacheOk(c, clients, next, refs)
    ensures CoreOk(c, clients, next)
  {
  }

  /** Of the handles in the cache just that of the key goes. */
  lemma OthersStayCached(c: Core, clients: multiset<nat>, next: nat, h: History, refs: set<Ref>, key: Bytes, hash: nat)
    requires CacheOk(c, clients, next, refs) && Unique(refs) && HistoryOk(c, next, h)
    ensures match MatchIn(refs, key, hash)
            case None => forall id :: !IsCached(c, id, key, hash)
            case Some(r) =>
              && r.id in c.handles && c.handles[r.id].refs > 0 && HistoryOk(Erased(c, r.id), next, h)
              && forall id :: id in Cached(Erased(c, r.id)) <==> id in Cached(c) && !IsCached(c, id, key, hash)
  {
    TableFinds(c, refs, key, hash);
    var m := MatchIn(refs, key, hash);
    if m.Some? {
      assert IsCached(c, m.value.id, key, hash);
      EraseHistory(c, next, h, m.value.id);
    }
  }

  lemma Released(c: Core, clients: multiset<nat>, next: nat, refs: set<Ref>, id: nat)
    requires CacheOk(c, clients, next, refs) && id in clients
    ensures CacheOk(Unreferenced(c, id), clients - multiset{id}, next, refs)
  {
    UnrefKeeps(c, clients, next, id);
    ReleasedTable(c, clients, refs, id);
  }

  lemma ErasedKeepsAll(c: Core, clients: multiset<nat>, next: nat, refs: set<Ref>, id: nat)
    requires CacheOk(c, clients, next, refs) && id in c.handles && c.handles[id].inCache && c.handles[id].refs > 0
    ensures CacheOk(Erased(c, id), clients, next, refs - {RefOf(c, id)})
  {
    hide CoreOk, TableOk, Erased;
    EraseKeeps(c, clients, next, id);
    ErasedFromTable(c, refs, id);
  }

  lemma FoundAndErased(c: Core, clients: multiset<nat>, next: nat, refs: set<Ref>, key: Bytes, hash: nat)
    requires CacheOk(c, clients, next, refs) && Unique(refs)
    ensures match MatchIn(refs, key, hash)
            case None => forall id :: !IsCached(c, id, key, hash)
            case Some(r) =>
              && IsCached(c, r.id, key, hash) && r.id in c.handles && c.handles[r.id].inCache && c.handles[r.id].refs > 0
              && CacheOk(Erased(c, r.id), clients, next, refs - {r})
              && forall id :: !IsCached(Erased(c, r.id), id, key, hash)
  {
    TableFinds(c, refs, key, hash);
    var m := MatchIn(refs, key, hash);
    if m.Some? {
      assert CachedAs(c, Some(m.value.id), key, hash) && IsCached(c, m.value.id, key, hash);
      ErasedKeepsAll(c, clients, next, refs, m.value.id);
      ErasedIsGone(c, m.value.id, key, hash);
    }
  }

  /** The table has the oldest unused handle. */
  lemma OldestIsFound(c: Core, clients: multiset<nat>, next: nat, refs: set<Ref>)
    requires CacheOk(c, clients, next, refs) && Unique(refs) && c.lru != []
    ensures var id := c.lru[0];
            && id in c.handles && c.handles[id].inCache && c.handles[id].refs == 1
            && MatchIn(refs, c.handles[id].key, c.handles[id].hash) == Some(RefOf(c, id))
            && CacheOk(Erased(c, id), clients, next, refs - {RefOf(c, id)})
  {
    var id := c.lru[0];
    assert id in c.lru;
    assert IsCached(c, id, c.handles[id].key, c.handles[id].hash);
    TableFinds(c, refs, c.handles[id].key, c.handles[id].hash);
    ErasedKeepsAll(c, clients, next, refs, id);
  }

  /** FinishErase may be called for the handle. */
  ghost predicate Replaceable(c: Core, id: nat) {
    id in c.handles && c.handles[id].inCache && c.handles[id].refs > 0 && Listed(c, id)
  }

  lemma PlaceListed(c: Core, clients: multiset<nat>, next: nat, refs: set<Ref>, r: Ref, key: Bytes, hash: nat,
                    charge: nat)
    requires CacheOk(c, clients, next, refs) && r in refs
    ensures Replaceable(Added(c, next, key, hash, charge), r.id)
  {
    CachedRef(c, clients, next, refs, r);
  }

  // The loops of the cache

  lemma EvictionFrom(c: Core, clients: multiset<nat>, next: nat, refs: set<Ref>, capacity: int) returns (k: nat)
    requires CacheOk(c, clients, next, refs)
    ensures Evictable(c) && EvictsOldest(c, Evicted(c, capacity), k, capacity)
  {
    hide EvictsOldest, Evicted;
    k := EvictionIsRight(c, clients, next, capacity);
  }

  lemma EvictOne(c: Core, clients: multiset<nat>, next: nat, refs: set<Ref>, capacity: int)
    requires CacheOk(c, clients, next, refs) && c.usage > capacity && c.lru != []
    ensures c.lru[0] in c.handles && c.handles[c.lru[0]].refs > 0 && Evictable(c)
    ensures var e := Erased(c, c.lru[0]);
            Evictable(e) && |e.lru| < |c.lru| && Evicted(e, capacity) == Evicted(c, capacity)
  {
    assert c.lru[0] in c.lru;
    OldestErased(c);
  }

  lemma EvictedEnough(c: Core, clients: multiset<nat>, next: nat, refs: set<Ref>, capacity: int)
    requires CacheOk(c, clients, next, refs) && (c.usage <= capacity || c.lru == [])
    ensures Evictable(c) && Evicted(c, capacity) == c
  {
  }

  lemma UsageIsPositive(c: Core, clients: multiset<nat>, next: nat, refs: set<Ref>)
    requires CacheOk(c, clients, next, refs)
    ensures c.usage >= 0
  {
  }

  lemma AllEvicted(c: Core, e: Core, k: nat)
    requires EvictsOldest(c, e, k, -1) && e.lru == []
    ensures e.inUse == c.inUse && e.deleted == c.deleted + c.lru && e.handles == c.handles - Elements(c.lru)
  {
    assert c.lru[k..] == [] && c.lru[..k] == c.lru;
  }
}
