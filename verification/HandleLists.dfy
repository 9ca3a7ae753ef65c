/**
 * The two lists of the LRU cache (util/cache.cc, lru_ and in_use_): two rings through the handles, no handle on both, each
 * known here by the numbers of its handles.
 */
module HandleLists {
  import opened IntrusiveLists

  function LinksOf(links: map<nat, Link>, list: seq<nat>): (r: seq<Link>)
    requires forall id :: id in list ==> id in links
    ensures |r| == |list| && forall i :: 0 <= i < |list| ==> r[i] == links[list[i]]
  {
    if list == [] then [] else [links[list[0]]] + LinksOf(links, list[1..])
  }

  ghost predicate Named(links: map<nat, Link>) {
    forall id :: id in links ==> links[id].id == id
  }

  lemma {:induction false} LinksOfWithout(links: map<nat, Link>, list: seq<nat>, id: nat)
    requires Named(links) && id in links && forall x :: x in list ==> x in links
    ensures forall x :: x in Without(list, id) ==> x in list
    ensures LinksOf(links, Without(list, id)) == Without(LinksOf(links, list), links[id])
  {
    if list != [] {
      assert list == [list[0]] + list[1..];
      LinksOfWithout(links, list[1..], id);
      assert LinksOf(links, list)[1..] == LinksOf(links, list[1..]);
      var w := Without(list, id);
      if list[0] != id { assert w[1..] == Without(list[1..], id); }
    }
  }

  lemma DistinctIds(links: map<nat, Link>, head: Link, list: seq<nat>)
    requires (forall id :: id in list ==> id in links) && Distinct([head] + LinksOf(links, list))
    ensures Distinct(list)
  {
    var ring := [head] + LinksOf(links, list);
    forall i, j | 0 <= i < j < |list|
      ensures list[i] != list[j]
    {
      assert ring[i + 1] != ring[j + 1];
    }
  }

  /** The links of a list, its head first. */
  ghost predicate Names(links: map<nat, Link>, head: Link, list: seq<nat>) {
    (forall id :: id in list ==> id in links) && Named(links) && forall id :: id in links ==> links[id] != head
  }

  ghost function RingOf(links: map<nat, Link>, head: Link, list: seq<nat>): seq<Link>
    requires Names(links, head, list)
  {
    [head] + LinksOf(links, list)
  }

  class ListPair {
    const lruHead: Link
    const inUseHead: Link
    var links: map<nat, Link>  // of all handles
    ghost var lru: seq<nat>
    ghost var inUse: seq<nat>

    ghost function Repr(): set<object>
      reads `links
    {
      {this, lruHead, inUseHead} + set id | id in links :: links[id]
    }

    ghost predicate Valid()
      reads Repr()
    {
      && lruHead != inUseHead && (forall id :: id in lru ==> id !in inUse)
      && Names(links, lruHead, lru) && Ring(RingOf(links, lruHead, lru))
      && Names(links, inUseHead, inUse) && Ring(RingOf(links, inUseHead, inUse))
    }

    lemma Parts()
      requires Valid()
      ensures this in Repr() && lruHead != inUseHead && forall id :: id in lru ==> id !in inUse
      ensures Names(links, lruHead, lru) && Ring(RingOf(links, lruHead, lru))
      ensures Names(links, inUseHead, inUse) && Ring(RingOf(links, inUseHead, inUse))
      ensures forall id :: id in lru || id in inUse ==> id in links
    {
      hide Ring, LinksOf;
    }

    lemma Whole()
      requires lruHead != inUseHead && forall id :: id in lru ==> id !in inUse
      requires Names(links, lruHead, lru) && Ring(RingOf(links, lruHead, lru))
      requires Names(links, inUseHead, inUse) && Ring(RingOf(links, inUseHead, inUse))
      ensures Valid()
    {
      hide Ring, LinksOf;
    }

    constructor ()
      ensures Valid() && fresh(Repr()) && lru == [] && inUse == [] && links == map[]
    {
      lruHead := new Link(0);
      inUseHead := new Link(0);
      links, lru, inUse := map[], [], [];
    }

    lemma ListsAreDistinct()
      requires Valid()
      ensures Distinct(lru) && Distinct(inUse)
    {
      DistinctIds(links, lruHead, lru);
      DistinctIds(links, inUseHead, inUse);
    }

    /** A new handle is on neither list. */
    method NewLink(id: nat)
      requires Valid() && id !in links
      modifies this`links
      ensures Valid() && fresh(Repr() - old(Repr())) && id !in lru && id !in inUse
      ensures links.Keys == old(links).Keys + {id} && lru == old(lru) && inUse == old(inUse)
    {
      hide Ring, LinksOf, ListPair.Valid;
      Parts();
      ghost var was := links;
      ghost var a, b := RingOf(links, lruHead, lru), RingOf(links, inUseHead, inUse);
      var e := new Link(id);
      links := links[id := e];
      SameLinks(was, links, lru);
      SameLinks(was, links, inUse);
      assert RingOf(links, lruHead, lru) == a && RingOf(links, inUseHead, inUse) == b;
      Whole();
    }

    /** The two rings have no link in common, and no other links. */
    lemma RingsApart()
      requires Valid()
      ensures forall a :: a in RingOf(links, lruHead, lru) ==> a !in RingOf(links, inUseHead, inUse)
      ensures forall b :: b in RingOf(links, inUseHead, inUse) ==> b !in RingOf(links, lruHead, lru)
      ensures forall a :: a in RingOf(links, lruHead, lru) ==> a in Repr()
      ensures forall b :: b in RingOf(links, inUseHead, inUse) ==> b in Repr()
    {
    }

    /** The neighbours of a handle are on its list. */
    lemma Neighbours(id: nat)
      requires Valid() && (id in lru || id in inUse)
      ensures id in links && links[id].next in Repr() && links[id].prev in Repr()
      ensures var other := if id in lru then RingOf(links, inUseHead, inUse) else RingOf(links, lruHead, lru);
              links[id].next !in other && links[id].prev !in other
    {
      RingsApart();
      InList(links, if id in lru then lru else inUse, id);
      NeighboursInRing(if id in lru then RingOf(links, lruHead, lru) else RingOf(links, inUseHead, inUse), links[id]);
    }

    lemma OnOneList(id: nat)
      requires Valid() && (id in lru || id in inUse)
      ensures var a, b := Without(lru, id), Without(inUse, id);
              id !in a && id !in b && (forall x :: x in a ==> x !in b) && if id in lru then b == inUse else a == lru
    {
      ListsAreDistinct();
      WithoutMembers(lru, id);
      WithoutMembers(inUse, id);
      NothingWithout(if id in lru then inUse else lru, id);
    }

    /** LRU_Remove: from the list the handle is on. */
    method Remove(id: nat)
      requires Valid() && (id in lru || id in inUse)
      modifies Repr()
      ensures Valid() && links == old(links) && id !in lru && id !in inUse
      ensures lru == Without(old(lru), id) && inUse == Without(old(inUse), id)
    {
      hide Ring, LinksOf, Without, Names, RingOf, ListPair.Repr, ListPair.Valid;
      Parts();
      OnOneList(id);
      Neighbours(id);
      ghost var head, list := if id in lru then lruHead else inUseHead, if id in lru then lru else inUse;
      ghost var other := if id in lru then RingOf(links, inUseHead, inUse) else RingOf(links, lruHead, lru);
      TakeOut(links, id, head, list, other);
      lru, inUse := Without(lru, id), Without(inUse, id);
      Whole();
    }

    /** LRU_Append: the handle becomes the newest of the list. */
    method Append(head: Link, id: nat)
      requires Valid() && (head == lruHead || head == inUseHead) && id in links && id !in lru && id !in inUse
      modifies Repr()
      ensures Valid() && links == old(links)
      ensures head == lruHead ==> lru == old(lru) + [id] && inUse == old(inUse)
      ensures head == inUseHead ==> inUse == old(inUse) + [id] && lru == old(lru)
    {
      hide Ring, LinksOf, Names, RingOf, ListPair.Repr, ListPair.Valid;
      Parts();
      FreeLink(id);
      Ends();
      ghost var list := if head == lruHead then lru else inUse;
      ghost var other := if head == lruHead then RingOf(links, inUseHead, inUse) else RingOf(links, lruHead, lru);
      PutIn(links, id, head, list, other);
      if head == lruHead {
        lru := lru + [id];
      } else {
        inUse := inUse + [id];
      }
      Whole();
    }

    /** The newest handles are on their lists. */
    lemma Ends()
      requires Valid()
      ensures lruHead in Repr() && lruHead.prev in Repr() && inUseHead in Repr() && inUseHead.prev in Repr()
      ensures lruHead !in RingOf(links, inUseHead, inUse) && lruHead.prev !in RingOf(links, inUseHead, inUse)
      ensures inUseHead !in RingOf(links, lruHead, lru) && inUseHead.prev !in RingOf(links, lruHead, lru)
    {
      RingsApart();
      NeighboursInRing(RingOf(links, lruHead, lru), lruHead);
      NeighboursInRing(RingOf(links, inUseHead, inUse), inUseHead);
    }

    lemma FreeLink(id: nat)
      requires Valid() && id in links && id !in lru && id !in inUse
      ensures links[id] !in RingOf(links, lruHead, lru) && links[id] !in RingOf(links, inUseHead, inUse)
      ensures links[id] in Repr()
    {
    }

    lemma NextOfHead()
      requires Valid()
      ensures lruHead.next == if lru == [] then lruHead else links[lru[0]]
      ensures lru != [] ==> lru[0] in links && links[lru[0]] != lruHead && links[lru[0]].id == lru[0]
    {
      var ring := RingOf(links, lruHead, lru);
      assert ring[0].next == if |ring| == 1 then ring[0] else ring[1];
    }

    /** No handle is without a client. */
    predicate Empty()
      requires Valid()
      reads Repr()
      ensures Empty() <==> lru == []
    {
      NextOfHead();
      lruHead.next == lruHead
    }

    /** The oldest handle without a client. */
    function Oldest(): nat
      requires Valid() && lru != []
      reads Repr()
      ensures Oldest() == lru[0]
    {
      NextOfHead();
      lruHead.next.id
    }
  }

  /** Takes a handle out of a list, and leaves another ring as it is. */
  method TakeOut(links: map<nat, Link>, id: nat, ghost head: Link, ghost list: seq<nat>, ghost other: seq<Link>)
    requires Names(links, head, list) && Ring(RingOf(links, head, list)) && id in list && Ring(other)
    requires links[id].next !in other && links[id].prev !in other
    modifies links[id].next, links[id].prev
    ensures Names(links, head, Without(list, id)) && Ring(RingOf(links, head, Without(list, id))) && Ring(other)
  {
    var e := links[id];
    InList(links, list, id);
    LinksOfWithout(links, list, id);
    NotIn(other, e.next);
    NotIn(other, e.prev);
    assert Names(links, head, Without(list, id));
    hide Ring, LinksOf, Without, Names;
    IntrusiveLists.Remove(e, head, LinksOf(links, list));
  }

  /** Puts a handle at the end of a list, and leaves another ring as it is. */
  method PutIn(links: map<nat, Link>, id: nat, head: Link, ghost list: seq<nat>, ghost other: seq<Link>)
    requires Names(links, head, list) && Ring(RingOf(links, head, list)) && id in links && Ring(other)
    requires links[id] !in RingOf(links, head, list) && links[id] !in other && head !in other && head.prev !in other
    modifies links[id], head, head.prev
    ensures Names(links, head, list + [id]) && Ring(RingOf(links, head, list + [id])) && Ring(other)
  {
    LinksOfMore(links, list, id);
    NotIn(other, links[id]);
    NotIn(other, head);
    NotIn(other, head.prev);
    assert Names(links, head, list + [id]);
    assert RingOf(links, head, list + [id]) == [head] + LinksOf(links, list) + [links[id]];
    hide Ring, LinksOf, Names, RingOf;
    IntrusiveLists.Append(head, links[id], LinksOf(links, list));
  }

  lemma LinksOfMore(links: map<nat, Link>, list: seq<nat>, id: nat)
    requires id in links && forall x :: x in list ==> x in links
    ensures LinksOf(links, list + [id]) == LinksOf(links, list) + [links[id]]
  {
    assert forall x :: x in list + [id] ==> x in links;
    assert forall i :: 0 <= i < |list| + 1 ==> (list + [id])[i] == if i < |list| then list[i] else id;
  }

  lemma NotIn(ring: seq<Link>, e: Link)
    requires e !in ring
    ensures forall i :: 0 <= i < |ring| ==> ring[i] != e
  {
  }

  lemma InList(links: map<nat, Link>, list: seq<nat>, id: nat)
    requires id in list && forall x :: x in list ==> x in links
    ensures links[id] in LinksOf(links, list)
  {
    var k :| 0 <= k < |list| && list[k] == id;
    assert LinksOf(links, list)[k] == links[id];
  }

  lemma NeighboursInRing(ring: seq<Link>, e: Link)
    requires Ring(ring) && e in ring
    ensures e.next in ring && e.prev in ring
  {
    var k :| 0 <= k < |ring| && ring[k] == e;
    assert ring[k].next == if k + 1 < |ring| then ring[k + 1] else ring[0];
    assert ring[k].prev == if k > 0 then ring[k - 1] else ring[|ring| - 1] by {
      if k > 0 { assert ring[k - 1 + 1].prev == ring[k - 1]; }
    }
  }

  lemma SameLinks(a: map<nat, Link>, b: map<nat, Link>, list: seq<nat>)
    requires forall id :: id in list ==> id in a && id in b && a[id] == b[id]
    ensures LinksOf(a, list) == LinksOf(b, list)
  {
  }
}
