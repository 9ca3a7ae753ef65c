/**
 * The bytewise comparator, the internal key comparator over it, and the keys they find between others
 * (util/comparator.cc, db/dbformat.cc).
 */
module Comparators {
  import opened InternalKeys
  import opened Coding

  /** An internal key as tables hold it: the user's bytes, and the packed sequence number and type. */
  datatype IKey = IKey(user: Bytes, tag: U64)

  /** kMaxSequenceNumber with kValueTypeForSeek. */
  const SEEK_TAG: U64 := 256 * MAX_SEQUENCE + 1

  // Bytewise order

  predicate Less(a: Bytes, b: Bytes) {
    b != [] && (a == [] || a[0] < b[0] || (a[0] == b[0] && Less(a[1..], b[1..])))
  }

  lemma {:induction false} LessIsTransitive(a: Bytes, b: Bytes, c: Bytes)
    requires Less(a, b) && Less(b, c)
    ensures Less(a, c)
  {
    if a != [] && a[0] == b[0] == c[0] { LessIsTransitive(a[1..], b[1..], c[1..]); }
  }

  lemma {:induction false} LessIsTotal(a: Bytes, b: Bytes)
    ensures Less(a, b) || Less(b, a) || a == b
    ensures !(Less(a, b) && Less(b, a)) && (a == b ==> !Less(a, b))
  {
    if a != [] && b != [] {
      LessIsTotal(a[1..], b[1..]);
      assert a == [a[0]] + a[1..] && b == [b[0]] + b[1..];
    }
  }

  /** Strings that agree up to a byte are ordered by that byte. */
  lemma {:induction false} OrderedByByte(a: Bytes, b: Bytes, n: nat)
    requires n < |a| && n < |b| && a[..n] == b[..n]
    ensures a[n] < b[n] ==> Less(a, b)
    ensures a[n] > b[n] ==> Less(b, a)
    decreases n
  {
    if n > 0 {
      assert a[0] == a[..n][0] && b[0] == b[..n][0];
      assert a[1..][..n - 1] == a[..n][1..] && b[1..][..n - 1] == b[..n][1..];
      OrderedByByte(a[1..], b[1..], n - 1);
    }
  }

  predicate LessEq(a: Bytes, b: Bytes) { a == b || Less(a, b) }

  /** The first byte in which two strings differ. */
  ghost predicate DifferAt(a: Bytes, b: Bytes, n: nat) {
    n < |a| && n < |b| && a[..n] == b[..n] && a[n] != b[n]
  }

  /** The first byte that differs can be raised and stay below that of the limit. */
  ghost predicate CutAt(start: Bytes, limit: Bytes, n: nat) { DifferAt(start, limit,
                        n) && start[n] as nat + 1 < limit[n] }

  lemma DifferOnce(a: Bytes, b: Bytes, n: nat)
    requires n <= |a| && n <= |b| && a[..n] == b[..n]
    ensures forall m: nat :: DifferAt(a, b, m) ==> m >= n
    ensures n < |a| && n < |b| && a[n] != b[n] ==> DifferAt(a, b, n) && forall m: nat :: DifferAt(a, b, m) ==> m == n
  {
    assert forall i :: 0 <= i < n ==> a[i] == a[..n][i] && b[i] == b[..n][i];
    forall m: nat | DifferAt(a, b, m) && m > n
      ensures a[n] == b[n]
    {
      assert a[n] == a[..m][n] && b[n] == b[..m][n];
    }
  }

  /** Cut behind the first byte that differs, which is raised by one, if that stays below the limit. */
  method FindShortestSeparator(start: Bytes, limit: Bytes) returns (r: Bytes)
    ensures LessEq(start, r) && (Less(start, limit) ==> Less(r, limit))
    ensures |r| <= |start| && (!Less(start, limit) ==> r == start)
    ensures forall n: nat :: CutAt(start, limit, n) ==> r == start[..n] + [start[n] + 1]
    ensures (forall n: nat :: !CutAt(start, limit, n)) ==> r == start
  {
    var minLength := if |start| < |limit| then |start| else |limit|;
    var n := 0;
    while n < minLength && start[n] == limit[n]
      invariant 0 <= n <= minLength && start[..n] == limit[..n]
    {
      assert start[..n + 1] == start[..n] + [start[n]] && limit[..n + 1] == limit[..n] + [limit[n]];
      n := n + 1;
    }
    r := start;
    DifferOnce(start, limit, n);
    if n < minLength {
      OrderedByByte(start, limit, n);
      LessIsTotal(start, limit);
      var byte := start[n];
      if byte < 0xff && byte + 1 < limit[n] {
        r := start[..n] + [byte + 1];
        assert CutAt(start, limit, n) && r[..n] == start[..n];
        OrderedByByte(start, r, n);
        OrderedByByte(r, limit, n);
      }
    }
  }

  /** Cut behind the first byte that can be raised, which is. */
  method FindShortSuccessor(key: Bytes) returns (r: Bytes)
    ensures LessEq(key, r) && |r| <= |key|
    ensures forall n: nat :: n < |key| && key[n] != 0xff && (forall i :: 0 <= i < n ==> key[i] == 0xff) ==>
      r == key[..n] + [key[n] + 1]
    ensures (forall i :: 0 <= i < |key| ==> key[i] == 0xff) ==> r == key
  {
    for i := 0 to |key|
      invariant forall j :: 0 <= j < i ==> key[j] == 0xff
    {
      if key[i] != 0xff {
        r := key[..i] + [key[i] + 1];
        assert r[..i] == key[..i];
        OrderedByByte(key, r, i);
        return;
      }
    }
    r := key;
  }

  // Internal order

  predicate Before(a: IKey, b: IKey) {
    Less(a.user, b.user) || (a.user == b.user && a.tag > b.tag)
  }

  lemma BeforeIsTransitive(a: IKey, b: IKey, c: IKey)
    requires Before(a, b) && Before(b, c)
    ensures Before(a, c)
  {
    if Less(a.user, b.user) && Less(b.user, c.user) { LessIsTransitive(a.user, b.user, c.user); }
  }

  lemma BeforeIsTotal(a: IKey, b: IKey)
    ensures Before(a, b) || Before(b, a) || a == b
    ensures !(Before(a, b) && Before(b, a)) && (a == b ==> !Before(a, b))
  {
    LessIsTotal(a.user, b.user);
  }

  /** Between two keys, counting the first: the first itself, or a shorter user key strictly between with the first tag. */
  ghost predicate IsSeparator(start: IKey, limit: IKey, r: IKey) {
    r == start || (r.tag == SEEK_TAG && Less(start.user, r.user) && Less(r.user, limit.user))
  }

  lemma SeparatorIsBetween(start: IKey, limit: IKey, r: IKey)
    requires Before(start, limit) && IsSeparator(start, limit, r)
    ensures !Before(r, start) && Before(r, limit)
  {
    BeforeIsTotal(r, start);
  }

  method InternalSeparator(start: IKey, limit: IKey) returns (r: IKey)
    requires Before(start, limit)
    ensures IsSeparator(start, limit, r) && |r.user| <= |start.user|
    ensures forall n: nat :: CutAt(start.user, limit.user, n) && n + 1 < |start.user| ==>
      r == IKey(start.user[..n] + [start.user[n] + 1], SEEK_TAG)
    ensures (forall n: nat :: CutAt(start.user, limit.user, n) ==> n + 1 == |start.user|) ==> r == start
  {
    var tmp := FindShortestSeparator(start.user, limit.user);
    LessIsTotal(start.user, tmp);
    if |tmp| < |start.user| && Less(start.user, tmp) {
      r := IKey(tmp, SEEK_TAG);
    } else {
      r := start;
    }
  }

  method InternalSuccessor(key: IKey) returns (r: IKey)
    ensures (r == key || (r.tag == SEEK_TAG && Less(key.user, r.user))) && |r.user| <= |key.user|
    ensures forall n: nat :: n < |key.user| - 1 && key.user[n] != 0xff && (forall i :: 0 <= i < n ==> key.user[i] == 0xff) ==>
      r == IKey(key.user[..n] + [key.user[n] + 1], SEEK_TAG)
    ensures (forall i :: 0 <= i < |key.user| - 1 ==> key.user[i] == 0xff) ==> r == key
  {
    var tmp := FindShortSuccessor(key.user);
    if |tmp| < |key.user| && Less(key.user, tmp) {
      r := IKey(tmp, SEEK_TAG);
    } else {
      r := key;
    }
  }
}
