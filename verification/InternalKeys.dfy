/**
 * Internal keys and entries (db/dbformat.h, db/dbformat.cc).
 *
 * A user key is represented by its position in the order of the user comparator.  Every countable linear
 * order embeds in the real numbers, and keys are finite byte strings, so nothing below depends on a
 * particular comparator.
 */
module InternalKeys {
  type UserKey = real
  type Byte = x: int | 0 <= x < 256
  type Bytes = seq<Byte>

  datatype ValueType = Deletion | Value

  datatype InternalKey = InternalKey(user: UserKey, seqno: nat, kind: ValueType)

  datatype Entry = Entry(key: InternalKey, value: Bytes)

  const MAX_SEQUENCE: nat := 0xff_ffff_ffff_ffff

  /** Sequence number and type packed into one word, the type in the low eight bits. */
  function Tag(k: InternalKey): nat {
    256 * k.seqno + if k.kind.Value? then 1 else 0
  }

  /** The internal key comparator: user keys ascending, then tags descending. */
  predicate Before(a: InternalKey, b: InternalKey) {
    a.user < b.user || (a.user == b.user && Tag(a) > Tag(b))
  }

  /** The order on keys whose sequence numbers differ: user keys ascending, newest first. */
  predicate Precedes(a: InternalKey, b: InternalKey) {
    a.user < b.user || (a.user == b.user && a.seqno > b.seqno)
  }

  /** The key looked for when reading `u` at snapshot `s`. */
  function SeekKey(u: UserKey, s: nat): InternalKey {
    InternalKey(u, s, Value)
  }

  /** The first internal key a reader of `u` at snapshot `s` may see: every earlier key of `u` is too new. */
  lemma SeekKeySplitsVersions(k: InternalKey, s: nat)
    ensures Before(k, SeekKey(k.user, s)) <==> k.seqno > s
  {
  }

  ghost predicate Sorted(run: seq<Entry>) {
    forall i, j :: 0 <= i < j < |run| ==> Precedes(run[i].key, run[j].key)
  }

  /** Every entry of `a` is newer than every entry of `b` for the same user key. */
  ghost predicate Newer(a: seq<Entry>, b: seq<Entry>) {
    forall x, y :: x in a && y in b && x.key.user == y.key.user ==> x.key.seqno > y.key.seqno
  }

  ghost predicate Visible(e: Entry, u: UserKey, s: nat) {
    e.key.user == u && e.key.seqno <= s
  }

  /** `e` is the newest entry of `u` in `all` that a reader at snapshot `s` may see. */
  ghost predicate IsNewest(all: set<Entry>, u: UserKey, s: nat, e: Entry) {
    e in all && Visible(e, u, s) && forall x :: x in all && Visible(x, u, s) ==> x.key.seqno <= e.key.seqno
  }
}
