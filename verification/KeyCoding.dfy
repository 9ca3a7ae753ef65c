/** How an internal key is stored: the user's bytes, and the packed sequence number and type behind them (db/dbformat.cc). */
module KeyCoding {
  import opened InternalKeys
  import opened Coding

  const TAG_LENGTH: nat := 8

  /** AppendInternalKey. */
  function AppendKey(user: Bytes, tag: U64): Bytes {
    user + Fixed64(tag)
  }

  /** ExtractUserKey. */
  function UserOf(b: Bytes): Bytes
    requires |b| >= TAG_LENGTH
  {
    b[..|b| - TAG_LENGTH]
  }

  function TagOf(b: Bytes): (tag: nat)
    requires |b| >= TAG_LENGTH
    ensures tag < TWO_64
  {
    Powers();
    DecodeFixedBound(b[|b| - TAG_LENGTH..]);
    DecodeFixed(b[|b| - TAG_LENGTH..])
  }

  /** The two parts are read back from what is stored. */
  lemma KeyInverts(user: Bytes, tag: U64)
    ensures var b := AppendKey(user, tag);
            |b| == |user| + TAG_LENGTH && UserOf(b) == user && TagOf(b) == tag
  {
    var b := AppendKey(user, tag);
    FixedInverts(0, tag);
    assert b[|user|..] == Fixed64(tag);
  }

  /** And what is stored is made of the two parts read. */
  lemma {:induction false} FixedIsDecoded(b: Bytes)
    ensures Fixed(DecodeFixed(b), |b|) == b
  {
    if b != [] {
      var v := DecodeFixed(b);
      assert v % 256 == b[0] && v / 256 == DecodeFixed(b[1..]);
      hide DecodeFixed;
      FixedIsDecoded(b[1..]);
      assert b == [b[0]] + b[1..];
    }
  }

  lemma PartsInvert(b: Bytes)
    requires |b| >= TAG_LENGTH
    ensures AppendKey(UserOf(b), TagOf(b)) == b
  {
    FixedIsDecoded(b[|b| - TAG_LENGTH..]);
  }

  /** Which string of bytes stands at which place of the comparator's order. */
  datatype Places = Places(bytes: UserKey -> Bytes, place: Bytes -> UserKey) {
    ghost predicate Has(u: UserKey) { place(bytes(u)) == u }

    /** InternalKey's bytes. */
    function Encode(k: InternalKey): Bytes
      requires k.seqno <= MAX_SEQUENCE
    {
      AppendKey(bytes(k.user), Tag(k))
    }

    /** The key some bytes stand for; a string too short to hold a tag stands for no key and is read as a bare user key. */
    function Decode(b: Bytes): InternalKey {
      if |b| < TAG_LENGTH then InternalKey(place(b), 0, Deletion)
      else InternalKey(place(UserOf(b)), TagOf(b) / 256, if TagOf(b) % 256 == 1 then Value else Deletion)
    }
  }

  /** A key of a user's string of bytes is read back from the bytes that are stored. */
  lemma InternalKeyRoundTrip(k: InternalKey, places: Places)
    requires places.Has(k.user) && k.seqno <= MAX_SEQUENCE
    ensures places.Decode(places.Encode(k)) == k && |places.Encode(k)| == |places.bytes(k.user)| + TAG_LENGTH
  {
    hide AppendKey, UserOf, TagOf;
    KeyInverts(places.bytes(k.user), Tag(k));
  }
}
