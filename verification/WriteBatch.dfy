/** Batches of updates in their encoded form (db/write_batch.cc). */
module WriteBatches {
  import opened InternalKeys
  import opened Coding

  datatype Update = Put(key: Bytes, value: Bytes) | Delete(key: Bytes)

  datatype Status = Ok | TooSmall | BadPut | BadDelete | UnknownTag | WrongCount

  const HEADER: nat := 12  // a sequence number of 8 bytes and a count of 4
  const TYPE_DELETION: Byte := 0
  const TYPE_VALUE: Byte := 1

  ghost predicate Encodable(u: Update) {
    |u.key| < TWO_32 && (u.Put? ==> |u.value| < TWO_32)
  }

  ghost predicate AllEncodable(updates: seq<Update>) {
    forall u :: u in updates ==> Encodable(u)
  }

  ghost function EncodeUpdate(u: Update): Bytes
    requires Encodable(u)
  {
    match u
    case Put(key, value) => [TYPE_VALUE] + (LengthPrefixed(key) + LengthPrefixed(value))
    case Delete(key) => [TYPE_DELETION] + LengthPrefixed(key)
  }

  ghost function EncodeUpdates(updates: seq<Update>): Bytes
    requires AllEncodable(updates)
  {
    if updates == [] then [] else EncodeUpdate(updates[0]) + EncodeUpdates(updates[1..])
  }

  lemma {:induction false} EncodeJoins(a: seq<Update>, b: seq<Update>)
    requires AllEncodable(a) && AllEncodable(b)
    ensures AllEncodable(a + b) && EncodeUpdates(a + b) == EncodeUpdates(a) + EncodeUpdates(b)
  {
    hide EncodeUpdate;
    if a == [] {
      assert a + b == b;
    } else {
      EncodeJoins(a[1..], b);
      assert (a + b)[1..] == a[1..] + b;
      var e, f, g := EncodeUpdate(a[0]), EncodeUpdates(a[1..]), EncodeUpdates(b);
      assert e + (f + g) == (e + f) + g;
    }
  }

  /** A batch in its encoded form; the count wraps around at 32 bits. */
  ghost predicate Represents(rep: Bytes, first: U64, updates: seq<Update>) {
    AllEncodable(updates) && rep == Fixed64(first) + Fixed32(|updates| % TWO_32) + EncodeUpdates(updates)
  }

  // Reading a batch back

  /** The first update of some input. */
  function GetUpdate(input: Bytes): (r: (Status, Update, Bytes))
    requires input != []
  {
    var tag, rest := input[0], input[1..];
    if tag == TYPE_VALUE then
      match GetLengthPrefixed(rest)
      case None => (BadPut, Delete([]), rest)
      case Some(key) =>
        (match GetLengthPrefixed(key.rest)
         case None => (BadPut, Delete([]), rest)
         case Some(value) => (Ok, Put(key.value, value.value), value.rest))
    else if tag == TYPE_DELETION then
      match GetLengthPrefixed(rest)
      case None => (BadDelete, Delete([]), rest)
      case Some(key) => (Ok, Delete(key.value), key.rest)
    else (UnknownTag, Delete([]), rest)
  }

  lemma GetUpdateConsumes(input: Bytes)
    requires input != []
    ensures |GetUpdate(input).2| < |input|
  {
    PrefixedConsumes(input[1..]);
    match GetLengthPrefixed(input[1..])
    case None =>
    case Some(key) => PrefixedConsumes(key.rest);
  }

  lemma PrefixedConsumes(b: Bytes)
    ensures GetLengthPrefixed(b).Some? ==> |GetLengthPrefixed(b).value.rest| <= |b|
  {
    DecodeVarintConsumes(b, 5);
  }

  /** The updates of some input up to the first that is malformed, and what is wrong with it. */
  function Updates(input: Bytes): (r: (seq<Update>, Status))
    decreases |input|
  {
    if input == [] then ([], Ok)
    else
      var (status, u, rest) := GetUpdate(input);
      GetUpdateConsumes(input);
      if status != Ok then ([], status)
      else var more := Updates(rest); ([u] + more.0, more.1)
  }

  function Sequence(rep: Bytes): (s: nat)
    requires |rep| >= HEADER
    ensures s < TWO_64
  {
    DecodeFixedBound(rep[..8]);
    Powers();
    DecodeFixed(rep[..8])
  }

  function Count(rep: Bytes): (n: nat)
    requires |rep| >= HEADER
    ensures n < TWO_32
  {
    DecodeFixedBound(rep[8..HEADER]);
    Powers();
    DecodeFixed(rep[8..HEADER])
  }

  /** What a handler is given, and the result of Iterate. */
  function Iterated(rep: Bytes): (r: (seq<Update>, Status)) {
    if |rep| < HEADER then ([], TooSmall)
    else
      var (updates, status) := Updates(rep[HEADER..]);
      if status == Ok && |updates| % TWO_32 != Count(rep) then (updates, WrongCount) else (updates, status)
  }

  lemma Behind(tag: Byte, data: Bytes, rest: Bytes)
    ensures [tag] + data + rest != [] && ([tag] + data + rest)[0] == tag && ([tag] + data + rest)[1..] == data + rest
  {
  }

  lemma UpdateRoundTrip(u: Update, rest: Bytes)
    requires Encodable(u)
    ensures GetUpdate(EncodeUpdate(u) + rest) == (Ok, u, rest)
  {
    hide LengthPrefixed, GetLengthPrefixed;
    var input := EncodeUpdate(u) + rest;
    match u
    case Put(key, value) =>
      Behind(TYPE_VALUE, LengthPrefixed(key) + LengthPrefixed(value), rest);
      assert LengthPrefixed(key) + LengthPrefixed(value) + rest == LengthPrefixed(key) + (LengthPrefixed(value) + rest);
      LengthPrefixedRoundTrip(key, LengthPrefixed(value) + rest);
      LengthPrefixedRoundTrip(value, rest);
    case Delete(key) =>
      Behind(TYPE_DELETION, LengthPrefixed(key), rest);
      LengthPrefixedRoundTrip(key, rest);
  }

  lemma {:induction false} UpdatesRoundTrip(updates: seq<Update>)
    requires AllEncodable(updates)
    ensures Updates(EncodeUpdates(updates)) == (updates, Ok)
  {
    hide EncodeUpdate, GetUpdate;
    if updates != [] {
      var rest := EncodeUpdates(updates[1..]);
      UpdateRoundTrip(updates[0], rest);
      UpdatesRoundTrip(updates[1..]);
      assert EncodeUpdate(updates[0]) != [] by { EncodedIsLong(updates[0]); }
      assert [updates[0]] + updates[1..] == updates;
    }
  }

  lemma EncodedIsLong(u: Update)
    requires Encodable(u)
    ensures EncodeUpdate(u) != []
  {
  }

  /** The parts of a batch that represents something. */
  lemma RepresentedParts(rep: Bytes, first: U64, updates: seq<Update>)
    requires Represents(rep, first, updates)
    ensures |rep| >= HEADER && rep[HEADER..] == EncodeUpdates(updates)
    ensures Sequence(rep) == first && Count(rep) == |updates| % TWO_32
  {
    hide EncodeUpdates, Fixed, DecodeFixed;
    FixedInverts(|updates| % TWO_32, first);
    assert rep[..8] == Fixed64(first) && rep[8..HEADER] == Fixed32(|updates| % TWO_32);
  }

  /** Iterating over a batch gives back its updates, in order. */
  lemma IterateRoundTrip(rep: Bytes, first: U64, updates: seq<Update>)
    requires Represents(rep, first, updates)
    ensures Iterated(rep) == (updates, Ok)
  {
    RepresentedParts(rep, first, updates);
    UpdatesRoundTrip(updates);
  }

  lemma Split(a: Bytes, b: Bytes, c: Bytes)
    ensures var s := a + b + c;
            && s[..|a|] == a && s[|a|..] == b + c && s[|a|..|a| + |b|] == b && s[|a| + |b|..] == c
  {
  }

  lemma CountAdds(a: nat, b: nat)
    ensures (a % TWO_32 + b) % TWO_32 == (a + b) % TWO_32 && (a + b % TWO_32) % TWO_32 == (a + b) % TWO_32
  {
  }

  /** A batch under another sequence number. */
  lemma Resequenced(rep: Bytes, first: U64, updates: seq<Update>, s: U64)
    requires Represents(rep, first, updates)
    ensures |rep| >= HEADER && Represents(Fixed64(s) + rep[8..], s, updates)
  {
    hide EncodeUpdates, Fixed, AllEncodable;
    var count, data := Fixed32(|updates| % TWO_32), EncodeUpdates(updates);
    Split(Fixed64(first), count, data);
    assert Fixed64(s) + (count + data) == Fixed64(s) + count + data;
  }

  /** A batch with its count raised and updates appended. */
  lemma Grown(was: Bytes, first: U64, updates: seq<Update>, n: nat, data: Bytes, more: seq<Update>)
    requires Represents(was, first, updates) && AllEncodable(more) && n % TWO_32 == |updates + more| % TWO_32
    requires data == EncodeUpdates(more)
    ensures |was| >= HEADER && Represents(was[..8] + Fixed32(n % TWO_32) + was[HEADER..] + data, first, updates + more)
  {
    hide EncodeUpdates, Fixed, AllEncodable;
    EncodeJoins(updates, more);
    var olds := EncodeUpdates(updates);
    Split(Fixed64(first), Fixed32(|updates| % TWO_32), olds);
    var count := Fixed32(n % TWO_32);
    assert Fixed64(first) + count + olds + data == Fixed64(first) + count + (olds + data);
  }

  /** One more update. */
  lemma GrownByOne(was: Bytes, first: U64, updates: seq<Update>, u: Update, rep: Bytes)
    requires Represents(was, first, updates) && Encodable(u) && |was| >= HEADER
    requires rep == was[..8] + Fixed32((Count(was) + 1) % TWO_32) + was[HEADER..] + EncodeUpdate(u)
    ensures Represents(rep, first, updates + [u])
  {
    hide EncodeUpdate, Fixed;
    RepresentedParts(was, first, updates);
    CountAdds(|updates|, 1);
    assert EncodeUpdates([u]) == EncodeUpdate(u) + EncodeUpdates([]);
    Grown(was, first, updates, Count(was) + 1, EncodeUpdate(u), [u]);
  }

  // The code

  class WriteBatch {
    var rep: Bytes
    ghost var first: U64
    ghost var updates: seq<Update>

    ghost predicate Valid()
      reads this
    {
      Represents(rep, first, updates)
    }

    /** An empty batch. */
    constructor ()
      ensures Valid() && first == 0 && updates == []
    {
      rep := Fixed64(0) + Fixed32(0);
      first, updates := 0, [];
    }

    /** A batch read from a log, which may be malformed. */
    constructor Contents(rep: Bytes)
      ensures this.rep == rep
    {
      this.rep := rep;
      first, updates := 0, [];
    }

    method SetCount(n: nat)
      requires |rep| >= HEADER
      modifies `rep
      ensures rep == old(rep)[..8] + Fixed32(n % TWO_32) + old(rep)[HEADER..]
    {
      rep := rep[..8] + Fixed32(n % TWO_32) + rep[HEADER..];
    }

    method SetSequence(s: U64)
      requires Valid()
      modifies this
      ensures Valid() && first == s && updates == old(updates)
    {
      Resequenced(rep, first, updates, s);
      rep := Fixed64(s) + rep[8..];
      first := s;
    }

    method Put(key: Bytes, value: Bytes)
      requires Valid() && |key| < TWO_32 && |value| < TWO_32
      modifies this
      ensures Valid() && first == old(first) && updates == old(updates) + [Update.Put(key, value)]
    {
      hide Represents, Fixed, LengthPrefixed;
      LongEnough(rep, first, updates);
      ghost var was := rep;
      SetCount(Count(rep) + 1);
      ghost var counted := rep;
      rep := rep + [TYPE_VALUE];
      rep := rep + LengthPrefixed(key);
      rep := rep + LengthPrefixed(value);
      Joins(counted, [TYPE_VALUE], LengthPrefixed(key), LengthPrefixed(value));
      GrownByOne(was, first, updates, Update.Put(key, value), rep);
      updates := updates + [Update.Put(key, value)];
    }

    method Delete(key: Bytes)
      requires Valid() && |key| < TWO_32
      modifies this
      ensures Valid() && first == old(first) && updates == old(updates) + [Update.Delete(key)]
    {
      hide Represents, Fixed, LengthPrefixed;
      LongEnough(rep, first, updates);
      ghost var was := rep;
      SetCount(Count(rep) + 1);
      ghost var counted := rep;
      rep := rep + [TYPE_DELETION];
      rep := rep + LengthPrefixed(key);
      Joins(counted, [TYPE_DELETION], LengthPrefixed(key), []);
      GrownByOne(was, first, updates, Update.Delete(key), rep);
      updates := updates + [Update.Delete(key)];
    }

    /** Hands the updates to a handler, up to the first that is malformed. */
    method Iterate() returns (handled: seq<Update>, status: Status)
      ensures (handled, status) == Iterated(rep)
    {
      handled, status := [], Ok;
      if |rep| < HEADER {
        return [], TooSmall;
      }
      var input := rep[HEADER..];
      assert [] + Updates(input).0 == Updates(input).0;
      while input != []
        invariant Updates(rep[HEADER..]) == (handled + Updates(input).0, Updates(input).1)
        decreases |input|
      {
        hide GetUpdate;
        var (ok, u, rest) := GetUpdate(input);
        GetUpdateConsumes(input);
        if ok != Ok {
          assert handled + [] == handled;
          return handled, ok;
        }
        assert handled + ([u] + Updates(rest).0) == handled + [u] + Updates(rest).0;
        handled, input := handled + [u], rest;
      }
      assert handled + [] == handled;
      if |handled| % TWO_32 != Count(rep) {
        status := WrongCount;
      }
    }

    method Append(source: WriteBatch)
      requires Valid() && source.Valid()
      modifies this
      ensures Valid() && first == old(first) && updates == old(updates) + old(source.updates)
    {
      hide Represents, Fixed, EncodeUpdates;
      RepresentedParts(rep, first, updates);
      RepresentedParts(source.rep, source.first, source.updates);
      ghost var was, more := rep, source.updates;
      AreEncodable(source.rep, source.first, more);
      var n, data := Count(rep) + Count(source.rep), source.rep[HEADER..];
      CountAdds(|updates|, |more| % TWO_32);
      CountAdds(|updates|, |more|);
      SetCount(n);
      rep := rep + data;
      Grown(was, first, updates, n, data, more);
      updates := updates + more;
    }
  }

  lemma LongEnough(rep: Bytes, first: U64, updates: seq<Update>)
    requires Represents(rep, first, updates)
    ensures |rep| >= HEADER
  {
  }

  lemma AreEncodable(rep: Bytes, first: U64, updates: seq<Update>)
    requires Represents(rep, first, updates)
    ensures AllEncodable(updates)
  {
  }

  lemma Joins(a: Bytes, b: Bytes, c: Bytes, d: Bytes)
    ensures a + b + c + d == a + (b + (c + d)) && (d == [] ==> a + b + c == a + (b + c))
  {
    assert d == [] ==> a + b + c + d == a + b + c && c + d == c;
  }
}
