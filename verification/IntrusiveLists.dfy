/**
 * The lists of the LRU cache (util/cache.cc, LRU_Remove and LRU_Append): rings of handles linked both ways through a
 * dummy head, changed in place.
 */
module IntrusiveLists {
  function Without<T(==)>(list: seq<T>, e: T): seq<T> {
    if list == [] then [] else if list[0] == e then list[1..] else [list[0]] + Without(list[1..], e)
  }

  ghost predicate Distinct<T>(list: seq<T>) {
    forall i, j :: 0 <= i < j < |list| ==> list[i] != list[j]
  }

  lemma {:induction false} WithoutHas<T>(list: seq<T>, e: T, x: T)
    requires Distinct(list)
    ensures x in Without(list, e) <==> x in list && x != e
  {
    if list != [] {
      assert list == [list[0]] + list[1..];
      WithoutHas(list[1..], e, x);
    }
  }

  lemma {:induction false} WithoutMembers<T>(list: seq<T>, e: T)
    requires Distinct(list)
    ensures Distinct(Without(list, e)) && forall x :: x in Without(list, e) <==> x in list && x != e
  {
    forall x
      ensures x in Without(list, e) <==> x in list && x != e
    {
      WithoutHas(list, e, x);
    }
    if list != [] && list[0] != e {
      var w := Without(list[1..], e);
      WithoutMembers(list[1..], e);
      forall j | 0 <= j < |w|
        ensures w[j] != list[0]
      {
        WithoutHas(list[1..], e, w[j]);
      }
    }
  }

  lemma {:induction false} NothingWithout<T>(list: seq<T>, e: T)
    requires e !in list
    ensures Without(list, e) == list
  {
    if list != [] {
      assert list[0] in list && forall x :: x in list[1..] ==> x in list;
      NothingWithout(list[1..], e);
    }
  }

  lemma {:induction false} WithoutAt<T>(list: seq<T>, k: nat)
    requires Distinct(list) && k < |list|
    ensures Without(list, list[k]) == list[..k] + list[k + 1..]
  {
    if k > 0 {
      WithoutAt(list[1..], k - 1);
      assert [list[0]] + (list[1..][..k - 1] + list[1..][k..]) == list[..k] + list[k + 1..];
    } else {
      assert list[..0] + list[1..] == list[1..];
    }
  }

  class Link {
    const id: nat  // the handle whose links these are
    var next: Link
    var prev: Link

    /** Linked to itself, as the dummy head of an empty list is. */
    constructor (id: nat)
      ensures Ring([this]) && this.id == id
    {
      this.id, next, prev := id, this, this;
    }
  }

  /** The links of a list, its head first, lead around in both directions. */
  ghost predicate Ring(ring: seq<Link>)
    reads ring
  {
    && |ring| > 0 && Distinct(ring)
    && ring[|ring| - 1].next == ring[0] && ring[0].prev == ring[|ring| - 1]
    && forall i :: 0 <= i < |ring| - 1 ==> ring[i].next == ring[i + 1] && ring[i + 1].prev == ring[i]
  }

  /** LRU_Append: the newest element goes just before the head, wherever its links pointed. */
  method Append(head: Link, e: Link, ghost list: seq<Link>)
    requires Ring([head] + list) && e !in [head] + list
    modifies e, head, head.prev
    ensures Ring([head] + list + [e])
  {
    ghost var ring := [head] + list;
    e.next := head;
    e.prev := head.prev;
    assert e.prev == ring[|ring| - 1];
    e.prev.next := e;
    e.next.prev := e;
  }

  lemma TailIsDistinct<T>(head: T, list: seq<T>)
    requires Distinct([head] + list)
    ensures Distinct(list)
  {
    assert forall i :: 0 <= i < |list| ==> list[i] == ([head] + list)[i + 1];
  }

  lemma WithoutTail<T>(head: T, list: seq<T>, k: nat)
    requires k < |list|
    ensures [head] + (list[..k] + list[k + 1..]) == ([head] + list)[..k + 1] + ([head] + list)[k + 2..]
  {
  }

  /** The place of an element in its ring, and the ring without it. */
  lemma PlaceInRing(head: Link, list: seq<Link>, e: Link) returns (k: nat)
    requires Ring([head] + list) && e in list
    ensures 0 < k <= |list| && ([head] + list)[k] == e
    ensures [head] + Without(list, e) == ([head] + list)[..k] + ([head] + list)[k + 1..]
  {
    hide Ring, Distinct, Without;
    var j :| 0 <= j < |list| && list[j] == e;
    RingIsDistinct([head] + list);
    TailIsDistinct(head, list);
    WithoutAt(list, j);
    WithoutTail(head, list, j);
    k := j + 1;
  }

  lemma RingIsDistinct(ring: seq<Link>)
    requires Ring(ring)
    ensures Distinct(ring)
  {
    hide Distinct;
  }

  /** LRU_Remove: nothing but the links to the element changes. */
  method Remove(e: Link, ghost head: Link, ghost list: seq<Link>)
    requires Ring([head] + list) && e in list
    modifies e.next, e.prev
    ensures Ring([head] + Without(list, e))
  {
    hide Ring, Distinct, Without;
    ghost var k := PlaceInRing(head, list, e);
    Unlink(e, [head] + list, k);
  }

  /** The pointers alone, with the place of the element in the ring. */
  method Unlink(e: Link, ghost ring: seq<Link>, ghost k: nat)
    requires Ring(ring) && 0 < k < |ring| && ring[k] == e
    modifies e.next, e.prev
    ensures Ring(ring[..k] + ring[k + 1..])
  {
    ghost var before, after := ring[k - 1], ring[if k + 1 < |ring| then k + 1 else 0];
    assert ring[k - 1 + 1].prev == before;
    assert e.prev == before && e.next == after;
    ghost var ring2 := ring[..k] + ring[k + 1..];
    assert forall i :: 0 <= i < |ring2| ==> ring2[i] == ring[if i < k then i else i + 1];
    e.next.prev := e.prev;
    e.prev.next := e.next;
    assert before.next == after && after.prev == before;
    forall i | 0 <= i < |ring2| - 1
      ensures ring2[i].next == ring2[i + 1] && ring2[i + 1].prev == ring2[i]
    {
      if i < k - 1 {
        assert ring2[i] == ring[i] && ring2[i + 1] == ring[i + 1];
      } else if i >= k {
        assert ring2[i] == ring[i + 1] && ring2[i + 1] == ring[i + 1 + 1];
      }
    }
  }
}
