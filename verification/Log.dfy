/** The write-ahead log: framing, reading and what survives a crash (db/log_format.h, log_writer.cc, log_reader.cc). */
module Logs {
  import opened InternalKeys
  import opened Coding
  import Crc32c

  const BLOCK_SIZE: nat := 32768
  const HEADER_SIZE: nat := 7

  const ZERO: Byte := 0  // preallocated space
  const FULL: Byte := 1
  const FIRST: Byte := 2
  const MIDDLE: Byte := 3
  const LAST: Byte := 4

  // Framing

  function Checksum(kind: Byte, payload: Bytes): U32 {
    Crc32c.Mask(Crc32c.Value([kind] + payload)) as nat
  }

  function Header(crc: U32, length: nat, kind: Byte): (h: Bytes)
    requires length <= 0xffff
    ensures |h| == HEADER_SIZE
  {
    Fixed32(crc) + [length % 256, length / 256, kind]
  }

  function Physical(kind: Byte, payload: Bytes): (r: Bytes)
    requires |payload| <= 0xffff
    ensures |r| == HEADER_SIZE + |payload|
  {
    Header(Checksum(kind, payload), |payload|, kind) + payload
  }

  function KindOf(begin: bool, end: bool): Byte {
    if begin && end then FULL else if begin then FIRST else if end then LAST else MIDDLE
  }

  /** What is left of the block at a position of the file. */
  function Leftover(p: nat): nat { BLOCK_SIZE - p % BLOCK_SIZE }

  /** The trailer before the next header: no header starts in the last six bytes of a block. */
  function Trailer(p: nat): nat {
    if Leftover(p) < HEADER_SIZE then Leftover(p) else 0
  }

  /** The room for a payload after the next header. */
  function Avail(p: nat): nat { Leftover(p + Trailer(p)) - HEADER_SIZE }

  function FragmentLength(p: nat, left: nat): nat {
    if left < Avail(p) then left else Avail(p)
  }

  function Zeros(n: nat): (z: Bytes)
    ensures |z| == n
  {
    seq(n, _ => 0)
  }

  /** The next fragment of a record, with the trailer before it. */
  function Fragment(p: nat, data: Bytes, begin: bool): Bytes {
    var n := FragmentLength(p, |data|);
    Zeros(Trailer(p)) + Physical(KindOf(begin, n == |data|), data[..n])
  }

  /** What is left of a record, written at a position of the file. */
  function Encoded(p: nat, data: Bytes, begin: bool): Bytes
    decreases |data|, if Avail(p) == 0 then 1 else 0
  {
    var n, f := FragmentLength(p, |data|), Fragment(p, data, begin);
    if n == |data| then f
    else
      FullFragment(p, data, begin);
      f + Encoded(p + |f|, data[n..], false)
  }

  /** A fragment that does not end its record fills its block. */
  lemma FullFragment(p: nat, data: Bytes, begin: bool)
    requires FragmentLength(p, |data|) < |data|
    ensures (p + |Fragment(p, data, begin)|) % BLOCK_SIZE == 0
    ensures Avail(p + |Fragment(p, data, begin)|) > 0
  {
    assert Leftover(p + Trailer(p)) >= HEADER_SIZE;
    var q := p + Trailer(p) + HEADER_SIZE + Avail(p);
    assert q == p + |Fragment(p, data, begin)| by { hide Avail, Trailer, Physical, Zeros; }
    NextBlock(p + Trailer(p));
  }

  lemma NextBlock(p: nat)
    ensures (p + Leftover(p)) % BLOCK_SIZE == 0
  {
  }

  /** The records of a log, written from a position on. */
  function Log(p: nat, records: seq<Bytes>): Bytes
    decreases |records|
  {
    if records == [] then []
    else
      var e := Encoded(p, records[0], true);
      e + Log(p + |e|, records[1..])
  }

  /** Records added one after the other, to the same or to a reopened file, make one log. */
  lemma {:induction false} LogExtends(p: nat, records: seq<Bytes>, r: Bytes)
    ensures Log(p, records + [r]) == Log(p, records) + Encoded(p + |Log(p, records)|, r, true)
    decreases |records|
  {
    hide Encoded;
    if records == [] {
      assert records + [r] == [r] && Log(p + |Encoded(p, r, true)|, []) == [];
    } else {
      var e := Encoded(p, records[0], true);
      assert (records + [r])[1..] == records[1..] + [r];
      LogExtends(p + |e|, records[1..], r);
    }
  }

  /** What AddRecord still has to write. */
  ghost function ToWrite(p: nat, data: Bytes, start: nat, begin: bool, more: bool): Bytes
    requires start <= |data|
  {
    if more then Encoded(p, data[start..], begin) else []
  }

  /** Decreases with every fragment: only one fragment in two may be empty. */
  ghost function Work(p: nat, left: nat): nat {
    2 * left + if Avail(p) == 0 then 1 else 0
  }

  lemma EncodedSplits(p: nat, data: Bytes, start: nat, begin: bool)
    requires start <= |data|
    ensures var n, f := FragmentLength(p, |data| - start), Fragment(p, data[start..], begin);
            ToWrite(p, data, start, begin, true) == f + ToWrite(p + |f|, data, start + n, false, start + n < |data|)
  {
    var n := FragmentLength(p, |data| - start);
    assert data[start..][n..] == data[start + n..];
  }

  lemma WorkDecreases(p: nat, data: Bytes, start: nat, begin: bool)
    requires start <= |data|
    ensures var n, f := FragmentLength(p, |data| - start), Fragment(p, data[start..], begin);
            start + n < |data| ==> Work(p + |f|, |data| - start - n) < Work(p, |data| - start)
  {
    if start + FragmentLength(p, |data| - start) < |data| { FullFragment(p, data[start..], begin); }
  }

  /** With a fragment written, what is in the file and what is still to write make the same log. */
  lemma WriteOn(was: Bytes, data: Bytes, start: nat, begin: bool, now: Bytes)
    requires start <= |data| && now == was + Fragment(|was|, data[start..], begin)
    ensures var n := FragmentLength(|was|, |data| - start);
            now + ToWrite(|now|, data, start + n, false, start + n < |data|) == was + ToWrite(|was|, data, start, begin, true)
  {
    hide Encoded, Fragment, ToWrite;
    var n, f := FragmentLength(|was|, |data| - start), Fragment(|was|, data[start..], begin);
    var rest := ToWrite(|now|, data, start + n, false, start + n < |data|);
    EncodedSplits(|was|, data, start, begin);
    Joins(was, f, rest);
  }

  lemma Joins(a: Bytes, b: Bytes, c: Bytes)
    ensures (a + b) + c == a + (b + c)
  {
  }

  lemma SameOffset(a: nat, b: nat, n: nat)
    requires a % BLOCK_SIZE == b % BLOCK_SIZE
    ensures (a + n) % BLOCK_SIZE == (b + n) % BLOCK_SIZE
  {
  }

  /** The room in the block, from the offset the writer keeps. */
  lemma LeftoverIs(p: nat, offset: nat)
    requires offset <= BLOCK_SIZE && offset % BLOCK_SIZE == p % BLOCK_SIZE
    ensures var left := BLOCK_SIZE - offset;
            && (left < HEADER_SIZE ==> Trailer(p) == left && Avail(p) == BLOCK_SIZE - HEADER_SIZE && (p + left) % BLOCK_SIZE == 0)
            && (left >= HEADER_SIZE ==> Trailer(p) == 0 && Avail(p) == left - HEADER_SIZE)
  {
  }

  class Writer {
    var dest: Bytes  // the file
    var blockOffset: nat

    ghost predicate Valid()
      reads this
    {
      blockOffset <= BLOCK_SIZE && blockOffset % BLOCK_SIZE == |dest| % BLOCK_SIZE
    }

    /** Appends to a file that may hold records already. */
    constructor (dest: Bytes)
      ensures Valid() && this.dest == dest
    {
      this.dest := dest;
      blockOffset := |dest| % BLOCK_SIZE;
    }

    method AddRecord(data: Bytes)
      requires Valid()
      modifies this
      ensures Valid() && dest == old(dest) + Encoded(old(|dest|), data, true)
    {
      hide Encoded, Fragment, Avail, Work;
      var start: nat, begin, more := 0, true, true;
      while more
        invariant Valid() && start <= |data|
        invariant dest + ToWrite(|dest|, data, start, begin, more) == old(dest) + Encoded(old(|dest|), data, true)
        decreases more, Work(|dest|, |data| - start)
      {
        ghost var was := dest;
        var n := AddFragment(data, start, begin);
        WorkDecreases(|was|, data, start, begin);
        WriteOn(was, data, start, begin, dest);
        start, begin, more := start + n, false, start + n < |data|;
      }
    }

    /** Writes as much of the record as the block holds. */
    method AddFragment(data: Bytes, start: nat, begin: bool) returns (n: nat)
      requires Valid() && start <= |data|
      modifies this
      ensures Valid() && n == FragmentLength(old(|dest|), |data| - start)
      ensures dest == old(dest) + Fragment(old(|dest|), data[start..], begin)
    {
      hide Header, Checksum;
      SwitchBlock();
      var avail := BLOCK_SIZE - blockOffset - HEADER_SIZE;
      var left := |data| - start;
      n := if left < avail then left else avail;
      assert data[start..][..n] == data[start..start + n];
      EmitPhysicalRecord(KindOf(begin, left == n), data[start..start + n]);
    }

    /** Fills the trailer and goes on to the next block if no header fits. */
    method SwitchBlock()
      requires Valid()
      modifies this
      ensures Valid() && dest == old(dest) + Zeros(Trailer(old(|dest|)))
      ensures blockOffset + HEADER_SIZE + Avail(old(|dest|)) == BLOCK_SIZE
    {
      var leftover := BLOCK_SIZE - blockOffset;
      LeftoverIs(|dest|, blockOffset);
      if leftover < HEADER_SIZE {
        if leftover > 0 {
          dest := dest + Zeros(leftover);
        }
        blockOffset := 0;
      }
    }

    method EmitPhysicalRecord(kind: Byte, payload: Bytes)
      requires Valid() && |payload| <= 0xffff && blockOffset + HEADER_SIZE + |payload| <= BLOCK_SIZE
      modifies this
      ensures Valid() && dest == old(dest) + Physical(kind, payload)
    {
      var crc := Crc(kind, payload);
      dest := dest + Header(crc, |payload|, kind);
      dest := dest + payload;
      SameOffset(blockOffset, old(|dest|), HEADER_SIZE + |payload|);
      blockOffset := blockOffset + HEADER_SIZE + |payload|;
    }

    /** Extends the checksum of the kind, kept ready for every kind, by the payload. */
    static method Crc(kind: Byte, payload: Bytes) returns (crc: U32)
      ensures crc == Checksum(kind, payload)
    {
      Crc32c.ExtendJoins(0, [kind], payload);
      crc := Crc32c.Mask(Crc32c.Extend(Crc32c.Value([kind]), payload)) as nat;
    }
  }
}
