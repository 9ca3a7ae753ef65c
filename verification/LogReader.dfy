/** Reading the write-ahead log, also after a crash cut it short (db/log_reader.cc). */
module LogReading {
  import opened Wrappers
  import opened InternalKeys
  import opened Coding
  import opened Logs
  import Crc32c

  const EOF: Byte := LAST + 1
  const BAD: Byte := LAST + 2

  // What the reader makes of a file, from a position on

  /** What ReadPhysicalRecord finds; `dropped` are the byte counts it reports as corrupt. */
  datatype Found =
    | Piece(kind: Byte, data: Bytes, next: nat)
    | Eof
    | Bad(next: nat, dropped: seq<nat>)

  /** Where the block of a position ends, or the file if it ends first. */
  function BlockEnd(file: Bytes, p: nat): nat {
    var end := p + Leftover(p);
    if end <= |file| then end else |file|
  }

  function LengthAt(file: Bytes, p: nat): nat
    requires p + HEADER_SIZE <= |file|
  {
    (file[p + 4] as nat) + 256 * (file[p + 5] as nat)
  }

  predicate ChecksumMatches(file: Bytes, p: nat)
    requires p + HEADER_SIZE <= |file| && p + HEADER_SIZE + LengthAt(file, p) <= |file|
  {
    DecodeFixedBound(file[p..p + 4]);
    Powers();
    Crc32c.Matches(DecodeFixed(file[p..p + 4]), file[p + HEADER_SIZE - 1..p + HEADER_SIZE + LengthAt(file, p)])
  }

  /** The record whose header starts here. */
  function ReadAt(file: Bytes, p: nat, checksum: bool): Found
    requires p <= |file| && Leftover(p) >= HEADER_SIZE
  {
    var end := BlockEnd(file, p);
    if end - p < HEADER_SIZE then Eof  // a truncated header
    else
      var length := LengthAt(file, p);
      if p + HEADER_SIZE + length > end then
        if end == p + Leftover(p) then Bad(end, [end - p]) else Eof
      else if file[p + 6] == ZERO && length == 0 then Bad(end, [])
      else if checksum && !ChecksumMatches(file, p) then Bad(end, [end - p])
      else Piece(file[p + 6], file[p + HEADER_SIZE..p + HEADER_SIZE + length], p + HEADER_SIZE + length)
  }

  function ReadPhysical(file: Bytes, p: nat, checksum: bool): (r: Found)
    requires p <= |file|
    ensures r.Piece? ==> p < r.next <= |file|
    ensures r.Bad? ==> p < r.next <= |file|
  {
    if Leftover(p) >= HEADER_SIZE then ReadAt(file, p, checksum)
    else if p + Leftover(p) <= |file| then ReadAt(file, p + Leftover(p), checksum)
    else Eof  // the file ends in the trailer
  }

  /** What ReadRecord returns, with the byte counts reported as corrupt on the way. */
  datatype Logical =
    | Record(data: Bytes, next: nat, dropped: seq<nat>)
    | End(dropped: seq<nat>)
  {
    function After(reported: seq<nat>): Logical {
      match this
      case Record(data, next, dropped) => Record(data, next, reported + dropped)
      case End(dropped) => End(reported + dropped)
    }
  }

  /** What is reported when a record starts or breaks off before the last one ended. */
  function Unfinished(scratch: Bytes, inRecord: bool): seq<nat> {
    if inRecord && scratch != [] then [|scratch|] else []
  }

  /** What a physical record does to the record being put together: it ends the search, or the search goes on. */
  datatype Turn =
    | Stop(result: Logical)
    | Go(next: nat, scratch: Bytes, inRecord: bool, reported: seq<nat>)

  function TurnOn(found: Found, scratch: Bytes, inRecord: bool): Turn {
    match found
    case Eof => Stop(End([]))
    case Bad(next, dropped) => var (s, r, reported) := Absorbed(BAD, [], scratch, inRecord); Go(next, s, r, dropped + reported)
    case Piece(kind, data, next) =>
      if kind == FULL then Stop(Record(data, next, Unfinished(scratch, inRecord)))
      else if kind == LAST && inRecord then Stop(Record(scratch + data, next, []))
      else if kind == EOF then Stop(End([]))  // the code's own mark, should it stand in the file
      else var (s, r, reported) := Absorbed(kind, data, scratch, inRecord); Go(next, s, r, reported)
  }

  /** What a physical record that ends none leaves of the record being put together, and what is reported. */
  function Absorbed(kind: Byte, data: Bytes, scratch: Bytes, inRecord: bool): (Bytes, bool, seq<nat>) {
    if kind == FIRST then (data, true, Unfinished(scratch, inRecord))
    else if kind == MIDDLE && inRecord then (scratch + data, true, [])
    else if kind == MIDDLE || kind == LAST then (scratch, inRecord, [|data|])
    else if kind == BAD then ([], false, if inRecord then [|scratch|] else [])
    else ([], false, [|data| + if inRecord then |scratch| else 0])
  }

  function ReadLogical(file: Bytes, p: nat, scratch: Bytes, inRecord: bool, checksum: bool): (r: Logical)
    requires p <= |file|
    ensures r.Record? ==> p < r.next <= |file|
    decreases |file| - p
  {
    match TurnOn(ReadPhysical(file, p, checksum), scratch, inRecord)
    case Stop(r) => r
    case Go(next, scratch2, inRecord2, reported) =>
      ReadLogical(file, next, scratch2, inRecord2, checksum).After(reported)
  }

  /** All the records of a file, and everything reported as corrupt. */
  function ReadAll(file: Bytes, p: nat, checksum: bool): (r: (seq<Bytes>, seq<nat>))
    requires p <= |file|
    decreases |file| - p
  {
    match ReadLogical(file, p, [], false, checksum)
    case End(dropped) => ([], dropped)
    case Record(data, next, dropped) =>
      var rest := ReadAll(file, next, checksum);
      ([data] + rest.0, dropped + rest.1)
  }

  // What a crash leaves

  /** From `p` on, the file is a beginning of `bytes` and perhaps more. */
  ghost predicate Holds(file: Bytes, p: nat, bytes: Bytes) {
    p <= |file| && forall i :: 0 <= i < |bytes| && p + i < |file| ==> file[p + i] == bytes[i]
  }

  lemma HoldsParts(file: Bytes, p: nat, a: Bytes, b: Bytes)
    requires Holds(file, p, a + b)
    ensures Holds(file, p, a) && (p + |a| <= |file| ==> Holds(file, p + |a|, b))
  {
    forall i | 0 <= i < |a| && p + i < |file|
      ensures file[p + i] == a[i]
    {
      assert (a + b)[i] == a[i];
    }
    forall i | 0 <= i < |b| && p + |a| + i < |file|
      ensures file[p + |a| + i] == b[i]
    {
      assert (a + b)[|a| + i] == b[i];
      assert file[p + (|a| + i)] == (a + b)[|a| + i];
    }
  }

  lemma HeldSlice(file: Bytes, p: nat, bytes: Bytes, i: nat, j: nat)
    requires Holds(file, p, bytes) && i <= j <= |bytes| && p + j <= |file|
    ensures file[p + i..p + j] == bytes[i..j]
  {
  }

  /** A whole physical record is read back. */
  lemma ReadsWhole(file: Bytes, p: nat, kind: Byte, payload: Bytes, checksum: bool)
    requires Leftover(p) >= HEADER_SIZE + |payload| && |payload| <= 0xffff && kind != ZERO
    requires Holds(file, p, Physical(kind, payload)) && p + HEADER_SIZE + |payload| <= |file|
    ensures ReadAt(file, p, checksum) == Piece(kind, payload, p + HEADER_SIZE + |payload|)
  {
    var r := Physical(kind, payload);
    HeaderRead(file, p, kind, payload);
    HeldSlice(file, p, r, HEADER_SIZE, |r|);
    assert r[HEADER_SIZE..] == payload;
    WholeChecks(file, p, kind, payload);
  }

  /** The header, once it is there, tells the kind and the length. */
  lemma HeaderRead(file: Bytes, p: nat, kind: Byte, payload: Bytes)
    requires |payload| <= 0xffff && Holds(file, p, Physical(kind, payload)) && p + HEADER_SIZE <= |file|
    ensures file[p + 6] == kind && LengthAt(file, p) == |payload|
  {
    var r := Physical(kind, payload);
    assert r[4] == |payload| % 256 && r[5] == |payload| / 256 && r[6] == kind;
  }

  lemma WholeChecks(file: Bytes, p: nat, kind: Byte, payload: Bytes)
    requires |payload| <= 0xffff && Holds(file, p, Physical(kind, payload)) && p + HEADER_SIZE + |payload| <= |file|
    ensures LengthAt(file, p) == |payload| && ChecksumMatches(file, p)
  {
    hide Crc32c.Value, Crc32c.Mask, Crc32c.Matches;
    var r := Physical(kind, payload);
    HeaderRead(file, p, kind, payload);
    HeldSlice(file, p, r, 0, 4);
    HeldSlice(file, p, r, 6, |r|);
    assert r[..4] == Fixed32(Checksum(kind, payload));
    assert r[6..] == [kind] + payload;
    FixedInverts(Checksum(kind, payload), 0);
    Crc32c.StoredMatches([kind] + payload);
    assert file[p..p + 4] == Fixed32(Checksum(kind, payload));
    assert file[p + 6..p + |r|] == [kind] + payload;
  }

  /** A physical record that is cut short reads as the end of the file. */
  lemma ReadsCut(file: Bytes, p: nat, kind: Byte, payload: Bytes, checksum: bool)
    requires Leftover(p) >= HEADER_SIZE + |payload| && |payload| <= 0xffff
    requires Holds(file, p, Physical(kind, payload)) && |file| < p + HEADER_SIZE + |payload|
    ensures ReadAt(file, p, checksum) == Eof
  {
    if p + HEADER_SIZE <= |file| { HeaderRead(file, p, kind, payload); }
  }

  /** A fragment, with the trailer before it, is read if it is all there; otherwise the file has ended. */
  lemma ReadsFragment(file: Bytes, p: nat, data: Bytes, begin: bool, checksum: bool)
    requires Holds(file, p, Fragment(p, data, begin))
    ensures var n, end := FragmentLength(p, |data|), p + |Fragment(p, data, begin)|;
            ReadPhysical(file, p, checksum)
            == if end <= |file| then Piece(KindOf(begin, n == |data|), data[..n], end) else Eof
  {
    var n := FragmentLength(p, |data|);
    var kind, payload, q := KindOf(begin, n == |data|), data[..n], p + Trailer(p);
    TrailerSkipped(p);
    HoldsParts(file, p, Zeros(Trailer(p)), Physical(kind, payload));
    if q <= |file| { ReadsPhysical(file, q, kind, payload, checksum); }
  }

  lemma ReadsPhysical(file: Bytes, q: nat, kind: Byte, payload: Bytes, checksum: bool)
    requires Leftover(q) >= HEADER_SIZE + |payload| && |payload| <= 0xffff && kind != ZERO
    requires Holds(file, q, Physical(kind, payload))
    ensures ReadAt(file, q, checksum)
            == if q + HEADER_SIZE + |payload| <= |file| then Piece(kind, payload, q + HEADER_SIZE + |payload|) else Eof
  {
    if q + HEADER_SIZE + |payload| <= |file| {
      ReadsWhole(file, q, kind, payload, checksum);
    } else {
      ReadsCut(file, q, kind, payload, checksum);
    }
  }

  lemma TrailerSkipped(p: nat)
    ensures Leftover(p + Trailer(p)) >= HEADER_SIZE
    ensures Leftover(p) < HEADER_SIZE ==> Trailer(p) == Leftover(p)
    ensures Leftover(p) >= HEADER_SIZE ==> Trailer(p) == 0
  {
  }

  lemma EncodedParts(p: nat, data: Bytes, begin: bool)
    ensures var n, f := FragmentLength(p, |data|), Fragment(p, data, begin);
            n <= |data| && Encoded(p, data, begin) == f + (if n == |data| then [] else Encoded(p + |f|, data[n..], false))
  {
  }

  /** A record is read back if all of it is there; otherwise the file has ended, and nothing is reported. */
  lemma {:induction false} ReadsRecord(file: Bytes, p: nat, data: Bytes, begin: bool, scratch: Bytes, checksum: bool)
    requires Holds(file, p, Encoded(p, data, begin)) && (begin ==> scratch == [])
    ensures var end := p + |Encoded(p, data, begin)|;
            ReadLogical(file, p, scratch, !begin, checksum)
            == if end <= |file| then Record(scratch + data, end, []) else End([])
    decreases |data|, if Avail(p) == 0 then 1 else 0
  {
    hide Fragment, ReadPhysical, Holds, Encoded;
    var n, f := FragmentLength(p, |data|), Fragment(p, data, begin);
    EncodedParts(p, data, begin);
    var rest := if n == |data| then [] else Encoded(p + |f|, data[n..], false);
    HoldsParts(file, p, f, rest);
    ReadsFragment(file, p, data, begin, checksum);
    if n == |data| {
      assert data[..n] == data;
    } else if p + |f| <= |file| {
      FullFragment(p, data, begin);
      ReadsRecord(file, p + |f|, data[n..], false, scratch + data[..n], checksum);
      assert scratch + data[..n] + data[n..] == scratch + data;
      NothingReported(ReadLogical(file, p + |f|, scratch + data[..n], true, checksum));
      if begin { assert scratch + data[..n] == data[..n]; }
    }
  }

  lemma NothingReported(r: Logical)
    ensures r.After([]) == r
  {
  }

  /** How many of the records end within the first `size` bytes. */
  function Contained(p: nat, records: seq<Bytes>, size: nat): (k: nat)
    ensures k <= |records|
    decreases |records|
  {
    if records == [] then 0
    else
      var end := p + |Encoded(p, records[0], true)|;
      if end <= size then 1 + Contained(end, records[1..], size) else 0
  }

  /** The records counted are exactly those that end in time. */
  lemma {:induction false} ContainedEndInTime(p: nat, records: seq<Bytes>, size: nat)
    requires p <= size
    ensures var k := Contained(p, records, size);
            && p + |Log(p, records[..k])| <= size
            && (k < |records| ==> size < p + |Log(p, records[..k + 1])|)
    decreases |records|
  {
    hide Encoded;
    if records != [] {
      var k, end := Contained(p, records, size), p + |Encoded(p, records[0], true)|;
      if end <= size {
        ContainedEndInTime(end, records[1..], size);
        assert records[..k] == [records[0]] + records[1..][..k - 1];
        if k < |records| { assert records[..k + 1] == [records[0]] + records[1..][..k]; }
      } else {
        assert records[..1] == [records[0]];
        assert Log(p + |Encoded(p, records[0], true)|, []) == [];
      }
    }
  }

  /** From a log cut anywhere, exactly the records that are all there are read, and nothing is reported as corrupt. */
  lemma {:induction false} CutLogReads(file: Bytes, p: nat, records: seq<Bytes>, checksum: bool)
    requires p <= |file| <= p + |Log(p, records)| && Holds(file, p, Log(p, records))
    ensures ReadAll(file, p, checksum) == (records[..Contained(p, records, |file|)], [])
    decreases |records|
  {
    hide Encoded, ReadLogical, Holds;
    if records == [] {
      EndOfFile(file, checksum);
    } else {
      var e := Encoded(p, records[0], true);
      HoldsParts(file, p, e, Log(p + |e|, records[1..]));
      ReadsRecord(file, p, records[0], true, [], checksum);
      assert [] + records[0] == records[0];
      if p + |e| <= |file| {
        CutLogReads(file, p + |e|, records[1..], checksum);
        OneMoreRead(file, p, records, p + |e|, Contained(p + |e|, records[1..], |file|), checksum);
      } else {
        assert records[..0] == [];
      }
    }
  }

  lemma OneMoreRead(file: Bytes, p: nat, records: seq<Bytes>, next: nat, k: nat, checksum: bool)
    requires records != [] && p <= next <= |file| && k < |records|
    requires ReadLogical(file, p, [], false, checksum) == Record(records[0], next, [])
    requires ReadAll(file, next, checksum) == (records[1..][..k], [])
    ensures ReadAll(file, p, checksum) == (records[..1 + k], [])
  {
    assert records[..1 + k] == [records[0]] + records[1..][..k];
    var rest := ReadAll(file, next, checksum);
    assert ReadAll(file, p, checksum).0 == [records[0]] + rest.0;
    assert ReadAll(file, p, checksum).1 == [] + rest.1;
    assert [] + rest.1 == [];
  }

  lemma EndOfFile(file: Bytes, checksum: bool)
    ensures ReadLogical(file, |file|, [], false, checksum) == End([])
  {
  }

  /**
   * Crash recovery of a log: whatever prefix of the bytes written survives, reading it from the start yields a prefix
   * of the records, namely all that were completely written.
   */
  lemma CrashPrefix(records: seq<Bytes>, cut: nat, checksum: bool) returns (k: nat)
    requires cut <= |Log(0, records)|
    ensures k <= |records| && ReadAll(Log(0, records)[..cut], 0, checksum) == (records[..k], [])
    ensures |Log(0, records[..k])| <= cut && (k < |records| ==> cut < |Log(0, records[..k + 1])|)
  {
    k := Contained(0, records, cut);
    CutLogReads(Log(0, records)[..cut], 0, records, checksum);
    ContainedEndInTime(0, records, cut);
  }

  // The code

  class Reader {
    const file: Bytes
    const checksum: bool
    var endOfBufferOffset: nat
    var buffer: Bytes
    var eof: bool
    var dropped: seq<nat>  // what the reporter was told

    constructor (file: Bytes, checksum: bool)
      ensures this.file == file && this.checksum == checksum && Valid() && Pos() == 0 && dropped == []
    {
      this.file, this.checksum := file, checksum;
      endOfBufferOffset, buffer, eof, dropped := 0, [], false, [];
    }

    /** The position in the file of what is left in the buffer. */
    ghost function Pos(): nat
      requires |buffer| <= endOfBufferOffset
      reads `endOfBufferOffset, `buffer
    {
      endOfBufferOffset - |buffer|
    }

    ghost predicate Valid()
      reads `endOfBufferOffset, `buffer, `eof
    {
      && |buffer| <= endOfBufferOffset <= |file| && buffer == file[Pos()..endOfBufferOffset]
      && (if eof then endOfBufferOffset == |file| else endOfBufferOffset % BLOCK_SIZE == 0)
      && (buffer != [] ==>
            BlockEnd(file, Pos()) == endOfBufferOffset && (eof <==> Pos() + Leftover(Pos()) > |file|))
    }

    /** SequentialFile::Read: the next block, or what there is of it. */
    method ReadBlock()
      requires Valid() && !eof && |buffer| < HEADER_SIZE
      modifies this
      ensures Valid() && dropped == old(dropped) && Pos() == old(endOfBufferOffset)
      ensures eof || endOfBufferOffset == old(endOfBufferOffset) + BLOCK_SIZE
    {
      var end := endOfBufferOffset + BLOCK_SIZE;
      if end > |file| { end := |file|; }
      buffer := file[endOfBufferOffset..end];
      endOfBufferOffset := end;
      eof := |buffer| < BLOCK_SIZE;
    }

    /** The result of ReadPhysicalRecord for what there is to find. */
    twostate predicate Returned(found: Found, kind: Byte, fragment: Bytes)
      reads this
    {
      && |buffer| <= endOfBufferOffset <= |file|
      && match found
         case Piece(k, data, next) => kind == k && fragment == data && Pos() == next && dropped == old(dropped)
         case Eof => kind == EOF && fragment == [] && dropped == old(dropped)
         case Bad(next, reported) =>
           kind == BAD && fragment == [] && Pos() == next && dropped == old(dropped) + reported
    }

    method ReadPhysicalRecord() returns (kind: Byte, fragment: Bytes)
      requires Valid()
      modifies this
      ensures Valid() && Returned(ReadPhysical(file, old(Pos()), checksum), kind, fragment)
    {
      while |buffer| < HEADER_SIZE
        invariant Valid() && dropped == old(dropped)
        invariant ReadPhysical(file, Pos(), checksum) == ReadPhysical(file, old(Pos()), checksum)
        decreases !eof, |file| - endOfBufferOffset
      {
        if eof {
          buffer := [];
          return EOF, [];
        }
        ReadBlock();
      }
      kind, fragment := ParseRecord();
    }

    /** What the buffer tells. */
    ghost function AtFront(): Found
      requires Valid() && |buffer| >= HEADER_SIZE
      reads `endOfBufferOffset, `buffer, `eof
    {
      var length := LengthAt(file, Pos());
      if HEADER_SIZE + length > |buffer| then (if eof then Eof else Bad(endOfBufferOffset, [|buffer|]))
      else if buffer[6] == ZERO && length == 0 then Bad(endOfBufferOffset, [])
      else if checksum && !ChecksumMatches(file, Pos()) then Bad(endOfBufferOffset, [|buffer|])
      else Piece(file[Pos() + 6], file[Pos() + HEADER_SIZE..Pos() + HEADER_SIZE + length], Pos() + HEADER_SIZE + length)
    }

    lemma FrontIsNext()
      requires Valid() && |buffer| >= HEADER_SIZE
      ensures AtFront() == ReadPhysical(file, Pos(), checksum)
      ensures LengthAt(file, Pos()) == buffer[4] as nat + 256 * (buffer[5] as nat)
    {
      hide ChecksumMatches;
    }

    /** Parses the record at the front of the buffer. */
    method ParseRecord() returns (kind: Byte, fragment: Bytes)
      requires Valid() && |buffer| >= HEADER_SIZE
      modifies this
      ensures Valid() && Returned(ReadPhysical(file, old(Pos()), checksum), kind, fragment)
    {
      hide ReadPhysical, ChecksumMatches, LengthAt, BlockEnd;
      FrontIsNext();
      var length := buffer[4] as nat + 256 * (buffer[5] as nat);
      if HEADER_SIZE + length > |buffer| {
        var size := |buffer|;
        buffer := [];
        if !eof {
          dropped := dropped + [size];
          return BAD, [];
        }
        return EOF, [];
      }
      if buffer[6] == ZERO && length == 0 {
        buffer := [];
        return BAD, [];
      }
      if checksum {
        var matches := Matches(length);
        if !matches {
          var size := |buffer|;
          buffer := [];
          dropped := dropped + [size];
          return BAD, [];
        }
      }
      kind, fragment := TakeRecord(length);
    }

    method TakeRecord(length: nat) returns (kind: Byte, fragment: Bytes)
      requires Valid() && HEADER_SIZE + length <= |buffer|
      modifies this`buffer
      ensures Valid() && Pos() == old(Pos()) + HEADER_SIZE + length
      ensures kind == file[old(Pos()) + 6]
      ensures fragment == file[old(Pos()) + HEADER_SIZE..old(Pos()) + HEADER_SIZE + length]
    {
      ghost var p := Pos();
      SliceOfSlice(file, p, endOfBufferOffset, HEADER_SIZE, HEADER_SIZE + length);
      kind, fragment := buffer[6], buffer[HEADER_SIZE..HEADER_SIZE + length];
      SliceOfSlice(file, p, endOfBufferOffset, HEADER_SIZE + length, |buffer|);
      if HEADER_SIZE + length < |buffer| { SameBlock(p, HEADER_SIZE + length); }
      buffer := buffer[HEADER_SIZE + length..];
    }

    method Matches(length: nat) returns (b: bool)
      requires Valid() && HEADER_SIZE + length <= |buffer| && LengthAt(file, Pos()) == length
      ensures b == ChecksumMatches(file, Pos())
    {
      hide Crc32c.Matches;
      DecodeFixedBound(buffer[..4]);
      Powers();
      b := Crc32c.Matches(DecodeFixed(buffer[..4]), buffer[6..HEADER_SIZE + length]);
      SliceOfSlice(file, Pos(), endOfBufferOffset, 0, 4);
      SliceOfSlice(file, Pos(), endOfBufferOffset, 6, HEADER_SIZE + length);
    }

    lemma InFile()
      requires Valid()
      ensures |buffer| <= endOfBufferOffset <= |file|
    {
    }

    /** The next record, `None` at the end of the file. */
    method ReadRecord() returns (record: Option<Bytes>)
      requires Valid()
      modifies this
      ensures Valid()
      ensures match ReadLogical(file, old(Pos()), [], false, checksum)
              case Record(data, next, reported) =>
                record == Some(data) && Pos() == next && dropped == old(dropped) + reported
              case End(reported) => record == None && dropped == old(dropped) + reported
    {
      hide Valid, ReadPhysical, ReadLogical, Absorbed;
      InFile();
      NothingReported(ReadLogical(file, Pos(), [], false, checksum));
      var scratch: Bytes, inRecord := [], false;
      ghost var reported := [];
      while true
        invariant Valid() && |buffer| <= endOfBufferOffset <= |file| && (inRecord || scratch == [])
        invariant dropped == old(dropped) + reported
        invariant ReadLogical(file, old(Pos()), [], false, checksum) ==
          ReadLogical(file, Pos(), scratch, inRecord, checksum).After(reported)
        decreases |file| - Pos()
      {
        ghost var turn := TurnOn(ReadPhysical(file, Pos(), checksum), scratch, inRecord);
        TurnsOn(file, Pos(), scratch, inRecord, checksum, reported);
        var kind, fragment := ReadPhysicalRecord();
        if kind == FULL {
          if inRecord && scratch != [] {
            dropped := dropped + [|scratch|];
          }
          return Some(fragment);
        } else if kind == LAST && inRecord {
          return Some(scratch + fragment);
        } else if kind == EOF {
          return None;
        }
        scratch, inRecord := Absorb(kind, fragment, scratch, inRecord);
        reported := reported + turn.reported;
        assert dropped == old(dropped) + reported;
      }
    }

    /** The cases that go on to the next physical record. */
    method Absorb(kind: Byte, fragment: Bytes, scratch0: Bytes, inRecord0: bool) returns (scratch: Bytes, inRecord: bool)
      requires (inRecord0 || scratch0 == []) && (kind == LAST ==> !inRecord0)
      modifies `dropped
      ensures var (s, r, reported) := Absorbed(kind, fragment, scratch0, inRecord0);
              scratch == s && inRecord == r && dropped == old(dropped) + reported
      ensures inRecord || scratch == []
    {
      scratch, inRecord := scratch0, inRecord0;
      if kind == FIRST {
        if inRecord && scratch != [] {
          dropped := dropped + [|scratch|];
        }
        scratch, inRecord := fragment, true;
      } else if kind == MIDDLE {
        if !inRecord {
          dropped := dropped + [|fragment|];
        } else {
          scratch := scratch + fragment;
        }
      } else if kind == LAST {
        dropped := dropped + [|fragment|];  // in a record it has been returned
      } else if kind == BAD {
        if inRecord {
          dropped := dropped + [|scratch|];
          scratch, inRecord := [], false;
        }
      } else {
        dropped := dropped + [|fragment| + if inRecord then |scratch| else 0];
        scratch, inRecord := [], false;
      }
    }
  }

  lemma TurnsOn(file: Bytes, p: nat, scratch: Bytes, inRecord: bool, checksum: bool, reported: seq<nat>)
    requires p <= |file|
    ensures var now := ReadLogical(file, p, scratch, inRecord, checksum).After(reported);
            match TurnOn(ReadPhysical(file, p, checksum), scratch, inRecord)
            case Stop(r) => now == r.After(reported)
            case Go(next, scratch2, inRecord2, more) =>
              p < next <= |file| && now == ReadLogical(file, next, scratch2, inRecord2, checksum).After(reported + more)
  {
    hide ReadPhysical;
    match TurnOn(ReadPhysical(file, p, checksum), scratch, inRecord)
    case Stop(_) =>
    case Go(next, scratch2, inRecord2, more) =>
      AfterAfter(ReadLogical(file, next, scratch2, inRecord2, checksum), more, reported);
  }

  lemma AfterAfter(r: Logical, a: seq<nat>, b: seq<nat>)
    ensures r.After(a).After(b) == r.After(b + a)
  {
    assert b + (a + r.dropped) == b + a + r.dropped;
  }

  lemma SliceOfSlice(s: Bytes, a: nat, b: nat, i: nat, j: nat)
    requires a <= b <= |s| && i <= j <= b - a
    ensures s[a..b][i..j] == s[a + i..a + j]
  {
    var x, y := s[a..b][i..j], s[a + i..a + j];
    assert |x| == |y|;
    forall k | 0 <= k < |x|
      ensures x[k] == y[k]
    {
    }
  }

  lemma SameBlock(p: nat, n: nat)
    requires n < Leftover(p)
    ensures p + n + Leftover(p + n) == p + Leftover(p)
  {
  }
}
