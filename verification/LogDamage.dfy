/**
 * What reading a log promises of damaged bytes (db/log_reader.cc): with checksums on, records are made of pieces that
 * match their checksums; a piece that does not is reported and so is the rest of its block; and nothing that is read
 * goes missing without a report.
 */
module LogDamage {
  import opened InternalKeys
  import opened Coding
  import opened Logs
  import opened LogReading
  import opened Sequences
  import Crc32c
  import S = Crc32cStrided

  // Pieces and their checksums

  /** A physical record of the file: where its header is, its kind and its payload. */
  datatype Part = Part(at: nat, kind: Byte, data: Bytes) {
    function End(): nat { at + HEADER_SIZE + |data| }
  }

  /** Where the header behind a position is: not in the last six bytes of a block. */
  function HeaderFrom(p: nat): nat { p + Trailer(p) }

  /** The file has the piece, and the checksum stored in front of it is that of its kind and payload. */
  ghost predicate IsChecked(file: Bytes, part: Part) {
    && part.End() <= |file| && file[part.at + 6] == part.kind
    && part.data == file[part.at + HEADER_SIZE..part.End()] && LengthAt(file, part.at) == |part.data|
    && DecodeFixed(file[part.at..part.at + 4]) < TWO_32
    && Crc32c.Matches(DecodeFixed(file[part.at..part.at + 4]), [part.kind] + part.data)
  }

  /** Every piece that ReadPhysicalRecord hands on matches its checksum. */
  lemma PieceIsChecked(file: Bytes, p: nat) returns (part: Part)
    requires p <= |file| && ReadPhysical(file, p, true).Piece?
    ensures var r := ReadPhysical(file, p, true);
            part == Part(HeaderFrom(p), r.kind, r.data) && part.End() == r.next && IsChecked(file, part)
  {
    hide Crc32c.Matches;
    var r, at := ReadPhysical(file, p, true), HeaderFrom(p);
    part := Part(at, r.kind, r.data);
    Powers();
    DecodeFixedBound(file[at..at + 4]);
    assert file[at + HEADER_SIZE - 1..at + HEADER_SIZE + LengthAt(file, at)]
           == [file[at + 6]] + file[at + HEADER_SIZE..at + HEADER_SIZE + LengthAt(file, at)];
  }

  /** The pieces follow one another, with nothing but block trailers between them. */
  ghost predicate Follow(parts: seq<Part>) {
    forall i :: 0 <= i < |parts| - 1 ==> parts[i + 1].at == HeaderFrom(parts[i].End())
  }

  /** A beginning of a record: a first piece and further ones. */
  ghost predicate Begun(file: Bytes, parts: seq<Part>, scratch: Bytes, p: nat) {
    && parts != [] && parts[0].kind == FIRST && (forall i :: 0 < i < |parts| ==> parts[i].kind == MIDDLE)
    && (forall i :: 0 <= i < |parts| ==> IsChecked(file, parts[i])) && Follow(parts)
    && scratch == Flatten(Payloads(parts)) && parts[|parts| - 1].End() == p
  }

  function Payloads(parts: seq<Part>): (r: seq<Bytes>)
    ensures |r| == |parts|
  {
    seq(|parts|, i requires 0 <= i < |parts| => parts[i].data)
  }

  /** A record: one full piece, or a first one, any number of middle ones and a last one. */
  ghost predicate IsRecord(file: Bytes, parts: seq<Part>, data: Bytes, next: nat) {
    && parts != [] && (forall i :: 0 <= i < |parts| ==> IsChecked(file, parts[i])) && Follow(parts)
    && data == Flatten(Payloads(parts)) && parts[|parts| - 1].End() == next
    && (if |parts| == 1 then parts[0].kind == FULL
        else
          && parts[0].kind == FIRST && parts[|parts| - 1].kind == LAST
          && forall i :: 0 < i < |parts| - 1 ==> parts[i].kind == MIDDLE)
  }

  lemma OneMorePart(file: Bytes, parts: seq<Part>, scratch: Bytes, p: nat, part: Part)
    requires Begun(file, parts, scratch, p) && IsChecked(file, part) && part.at == HeaderFrom(p)
    ensures part.kind == MIDDLE ==> Begun(file, parts + [part], scratch + part.data, part.End())
    ensures part.kind == LAST ==> IsRecord(file, parts + [part], scratch + part.data, part.End())
  {
    hide IsChecked;
    var more := parts + [part];
    assert Payloads(more) == Payloads(parts) + [part.data];
    FlattenExtends(Payloads(parts), part.data);
    forall i | 0 <= i < |more| - 1
      ensures more[i + 1].at == HeaderFrom(more[i].End())
    {
      if i < |parts| - 1 { assert more[i] == parts[i] && more[i + 1] == parts[i + 1]; }
    }
  }

  lemma OnePart(file: Bytes, part: Part)
    requires IsChecked(file, part)
    ensures part.kind == FIRST ==> Begun(file, [part], part.data, part.End())
    ensures part.kind == FULL ==> IsRecord(file, [part], part.data, part.End())
  {
    hide IsChecked;
    assert Payloads([part]) == [part.data];
    FlattenExtends([], part.data);
    assert [] + [part.data] == [part.data] && Flatten<Byte>([]) == [] && [] + part.data == part.data;
  }

  /** The record that ReadRecord returns, if it does, whatever has been begun. */
  lemma {:induction false} RecordIsChecked(file: Bytes, p: nat, scratch: Bytes, inRecord: bool, begun: seq<Part>)
    returns (parts: seq<Part>)
    requires p <= |file| && (inRecord ==> Begun(file, begun, scratch, p))
    requires ReadLogical(file, p, scratch, inRecord, true).Record?
    ensures var r := ReadLogical(file, p, scratch, inRecord, true); IsRecord(file, parts, r.data, r.next)
    decreases |file| - p
  {
    hide ReadPhysical, IsRecord, Begun, IsChecked;
    match ReadPhysical(file, p, true)
    case Eof =>
    case Bad(next, _) =>
      parts := RecordIsChecked(file, next, [], false, []);
    case Piece(kind, data, next) =>
      var part := PieceIsChecked(file, p);
      OnePart(file, part);
      if inRecord { OneMorePart(file, begun, scratch, p, part); }
      if kind == FULL {
        parts := [part];
      } else if kind == LAST && inRecord {
        parts := begun + [part];
      } else if kind == EOF {
      } else if kind == FIRST {
        parts := RecordIsChecked(file, next, data, true, [part]);
      } else if kind == MIDDLE && inRecord {
        parts := RecordIsChecked(file, next, scratch + data, true, begun + [part]);
      } else if kind == MIDDLE || kind == LAST {
        parts := RecordIsChecked(file, next, scratch, inRecord, begun);
      } else {
        parts := RecordIsChecked(file, next, [], false, []);
      }
  }

  ghost predicate HasRecord(file: Bytes, data: Bytes) {
    exists parts, next :: IsRecord(file, parts, data, next)
  }

  /** With checksums on, every record read is made of pieces that match theirs. */
  lemma {:induction false} RecordsAreChecked(file: Bytes, p: nat)
    requires p <= |file|
    ensures forall data :: data in ReadAll(file, p, true).0 ==> HasRecord(file, data)
    decreases |file| - p
  {
    hide ReadLogical, IsRecord;
    match ReadLogical(file, p, [], false, true)
    case End(_) =>
    case Record(data, next, _) =>
      var parts := RecordIsChecked(file, p, [], false, []);
      assert HasRecord(file, data);
      RecordsAreChecked(file, next);
  }

  // Damage

  /** The header is there and the payload too, within the block; and it is not preallocated space. */
  ghost predicate IsWhole(file: Bytes, at: nat) {
    && at + HEADER_SIZE <= |file| && Leftover(at) >= HEADER_SIZE
    && at + HEADER_SIZE + LengthAt(file, at) <= BlockEnd(file, at) && (file[at + 6] != ZERO || LengthAt(file, at) > 0)
  }

  /**
   * A piece whose bytes do not match its checksum is not read: the rest of its block is reported, and reading goes on
   * with the next block as if the log began there.
   */
  lemma DamageIsReported(file: Bytes, p: nat)
    requires p <= |file| && IsWhole(file, HeaderFrom(p)) && !ChecksumMatches(file, HeaderFrom(p))
    ensures var at := HeaderFrom(p); var end := BlockEnd(file, at);
            && p < end <= |file| && ReadPhysical(file, p, true) == Bad(end, [end - at])
            && ReadAll(file, p, true) == (ReadAll(file, end, true).0, [end - at] + ReadAll(file, end, true).1)
  {
    hide ReadPhysical, BlockEnd, IsWhole;
    var at := HeaderFrom(p);
    var end := BlockEnd(file, at);
    DamageIsSeen(file, p);
    assert [end - at] + [] == [end - at];
    GoesOnBehind(file, p, end, [end - at]);
  }

  lemma DamageIsSeen(file: Bytes, p: nat)
    requires p <= |file| && IsWhole(file, HeaderFrom(p)) && !ChecksumMatches(file, HeaderFrom(p))
    ensures var at := HeaderFrom(p); var end := BlockEnd(file, at);
            p < end <= |file| && at < end && ReadPhysical(file, p, true) == Bad(end, [end - at])
  {
    hide ChecksumMatches;
  }

  lemma GoesOnBehind(file: Bytes, p: nat, end: nat, dropped: seq<nat>)
    requires p < end <= |file| && ReadPhysical(file, p, true) == Bad(end, dropped)
    ensures ReadAll(file, p, true) == (ReadAll(file, end, true).0, dropped + ReadAll(file, end, true).1)
  {
    hide ReadPhysical;
    assert dropped + [] == dropped;
    var r := ReadLogical(file, end, [], false, true);
    assert ReadLogical(file, p, [], false, true) == r.After(dropped);
    if r.Record? {
      var rest := ReadAll(file, r.next, true);
      assert (dropped + r.dropped) + rest.1 == dropped + (r.dropped + rest.1);
    }
  }

  // What damage the checksum finds

  lemma ShiftIsOneToOne(a: bv32, b: bv32)
    requires Crc32c.Shift(a) == Crc32c.Shift(b)
    ensures a == b
  {
  }

  lemma {:induction false} ShiftsAreOneToOne(a: bv32, b: bv32, n: nat)
    requires Crc32c.ShiftBits(a, n) == Crc32c.ShiftBits(b, n)
    ensures a == b
  {
    hide Crc32c.Shift;
    if n > 0 {
      ShiftIsOneToOne(Crc32c.ShiftBits(a, n - 1), Crc32c.ShiftBits(b, n - 1));
      ShiftsAreOneToOne(a, b, n - 1);
    }
  }

  lemma SumIsOneToOne(a: bv32, b: bv32, c: bv32)
    requires Crc32c.Add(a, c) == Crc32c.Add(b, c)
    ensures a == b
  {
  }

  /** Equal bytes behind registers that differ leave registers that differ. */
  lemma {:induction false} FoldIsOneToOne(a: bv32, b: bv32, data: Bytes)
    requires Crc32c.Fold(a, data) == Crc32c.Fold(b, data)
    ensures a == b
  {
    hide Crc32c.Step, Crc32c.ShiftBits, Crc32c.Add, Crc32c.Bits;
    if data != [] {
      var n := |data| - 1;
      var x, y := Crc32c.Fold(a, data[..n]), Crc32c.Fold(b, data[..n]);
      S.StepIs(x, data[n]);
      S.StepIs(y, data[n]);
      ShiftsAreOneToOne(Crc32c.Add(x, Crc32c.Bits(data[n])), Crc32c.Add(y, Crc32c.Bits(data[n])), 8);
      SumIsOneToOne(x, y, Crc32c.Bits(data[n]));
      FoldIsOneToOne(a, b, data[..n]);
    }
  }

  /** Behind the same register, different words leave registers that differ. */
  lemma WordsAreTold(l: bv32, a: Bytes, b: Bytes)
    requires |a| == |b| == 4 && Crc32c.Fold(l, a) == Crc32c.Fold(l, b)
    ensures a == b
  {
    hide Crc32c.Fold, Crc32c.ShiftBits, Crc32c.Add, S.Word;
    assert a == [a[0], a[1], a[2], a[3]] && b == [b[0], b[1], b[2], b[3]];
    S.WordStep(l, a[0], a[1], a[2], a[3]);
    S.WordStep(l, b[0], b[1], b[2], b[3]);
    var v, w := S.Word(a[0], a[1], a[2], a[3]), S.Word(b[0], b[1], b[2], b[3]);
    ShiftsAreOneToOne(Crc32c.Add(l, v), Crc32c.Add(l, w), 32);
    S.AddCommutes(l, v);
    S.AddCommutes(l, w);
    SumIsOneToOne(v, w, l);
    WordHasBytes(a[0], a[1], a[2], a[3], b[0], b[1], b[2], b[3]);
  }

  lemma WordHasBytes(a0: Byte, a1: Byte, a2: Byte, a3: Byte, b0: Byte, b1: Byte, b2: Byte, b3: Byte)
    requires S.Word(a0, a1, a2, a3) == S.Word(b0, b1, b2, b3)
    ensures a0 == b0 && a1 == b1 && a2 == b2 && a3 == b3
  {
    LanesDiffer(a0 as bv8, a1 as bv8, a2 as bv8, a3 as bv8, b0 as bv8, b1 as bv8, b2 as bv8, b3 as bv8);
    SameByte(a0, b0);
    SameByte(a1, b1);
    SameByte(a2, b2);
    SameByte(a3, b3);
  }

  lemma LanesDiffer(a0: bv8, a1: bv8, a2: bv8, a3: bv8, b0: bv8, b1: bv8, b2: bv8, b3: bv8)
    requires (a0 as bv32) ^ (((a1 as bv32) << 8) ^ (((a2 as bv32) << 16) ^ ((a3 as bv32) << 24)))
             == (b0 as bv32) ^ (((b1 as bv32) << 8) ^ (((b2 as bv32) << 16) ^ ((b3 as bv32) << 24)))
    ensures a0 == b0 && a1 == b1 && a2 == b2 && a3 == b3
  {
  }

  lemma {:induction false} AsBits(b: Byte) returns (x: bv8)
    ensures x as int == b
  {
    if b == 0 {
      x := 0;
    } else {
      var y := AsBits(b - 1);
      NextBits(y);
      x := y + 1;
    }
  }

  lemma NextBits(y: bv8)
    requires y as int < 255
    ensures (y + 1) as int == y as int + 1
  {
  }

  lemma BitsBack(x: bv8)
    ensures (x as int) as bv8 == x
  {
  }

  lemma SameByte(a: Byte, b: Byte)
    requires a as bv8 == b as bv8
    ensures a == b
  {
    var x := AsBits(a);
    var y := AsBits(b);
    BitsBack(x);
    BitsBack(y);
  }

  /** Behind the same register, different bytes, up to four of them, leave registers that differ. */
  lemma FewBytesAreTold(l: bv32, a: Bytes, b: Bytes)
    requires |a| == |b| <= 4 && Crc32c.Fold(l, a) == Crc32c.Fold(l, b)
    ensures a == b
  {
    hide Crc32c.Fold;
    var z: Bytes := seq(4 - |a|, _ => 0);
    Crc32c.FoldJoins(l, a, z);
    Crc32c.FoldJoins(l, b, z);
    WordsAreTold(l, a + z, b + z);
    assert (a + z)[..|a|] == a && (b + z)[..|b|] == b;
  }

  /** Damage to no more than four neighbouring bytes changes the checksum. */
  lemma BurstsAreFound(front: Bytes, a: Bytes, b: Bytes, rest: Bytes)
    requires |a| == |b| <= 4 && Crc32c.Value(front + a + rest) == Crc32c.Value(front + b + rest)
    ensures a == b
  {
    hide Crc32c.Fold;
    Crc32c.Register(0, front + a + rest);
    Crc32c.Register(0, front + b + rest);
    var l := 0 ^ Crc32c.ONES;
    assert Crc32c.Fold(l, front + a + rest) == Crc32c.Fold(l, front + b + rest);
    Crc32c.FoldJoins(l, front + a, rest);
    Crc32c.FoldJoins(l, front + b, rest);
    Crc32c.FoldJoins(l, front, a);
    Crc32c.FoldJoins(l, front, b);
    FoldIsOneToOne(Crc32c.Fold(Crc32c.Fold(l, front), a), Crc32c.Fold(Crc32c.Fold(l, front), b), rest);
    FewBytesAreTold(Crc32c.Fold(l, front), a, b);
  }

  /** The file is as it was but for up to four neighbouring bytes behind the length of a piece. */
  ghost predicate Damaged(file: Bytes, was: Bytes, at: nat, i: nat, n: nat) {
    && |file| == |was| && IsWhole(was, at) && IsWhole(file, at) && n <= 4
    && at + HEADER_SIZE - 1 <= i && i + n <= at + HEADER_SIZE + LengthAt(was, at)
    && file[..i] == was[..i] && file[i + n..] == was[i + n..] && file != was
  }

  /** A stretch of two files that differ only within it. */
  lemma OutsideIsSame(file: Bytes, was: Bytes, from: nat, end: nat, i: nat, n: nat)
    requires from <= i && i + n <= end <= |file| == |was| && file[..i] == was[..i] && file[i + n..] == was[i + n..]
    ensures was[from..end] == was[from..i] + was[i..i + n] + was[i + n..end]
    ensures file[from..end] == was[from..i] + file[i..i + n] + was[i + n..end]
    ensures file[i..i + n] == was[i..i + n] ==> file == was
  {
    assert file[from..i] == file[..i][from..i];
    assert file[i + n..end] == file[i + n..][..end - i - n];
    assert file == file[..i] + file[i..i + n] + file[i + n..] && was == was[..i] + was[i..i + n] + was[i + n..];
  }

  /** A piece that matched its checksum does not after such damage. */
  lemma DamageIsFound(file: Bytes, was: Bytes, at: nat, i: nat, n: nat)
    requires Damaged(file, was, at, i, n) && ChecksumMatches(was, at)
    ensures !ChecksumMatches(file, at)
  {
    hide Crc32c.Value;
    var from, end := at + HEADER_SIZE - 1, at + HEADER_SIZE + LengthAt(was, at);
    SameLength(file, was, at, i, n);
    assert file[at..at + 4] == file[..i][at..at + 4] == was[..i][at..at + 4] == was[at..at + 4];
    OutsideIsSame(file, was, from, end, i, n);
    if ChecksumMatches(file, at) { BurstsAreFound(was[from..i], was[i..i + n], file[i..i + n], was[i + n..end]); }
  }

  lemma SameLength(file: Bytes, was: Bytes, at: nat, i: nat, n: nat)
    requires Damaged(file, was, at, i, n)
    ensures LengthAt(file, at) == LengthAt(was, at)
  {
    assert file[at + 4] == file[..i][at + 4] && was[at + 4] == was[..i][at + 4];
    assert file[at + 5] == file[..i][at + 5] && was[at + 5] == was[..i][at + 5];
  }

  /** So the piece is not read any more, and the rest of its block is reported. */
  lemma DamagedPieceIsDropped(file: Bytes, was: Bytes, p: nat, i: nat, n: nat)
    requires p <= |file| && Damaged(file, was, HeaderFrom(p), i, n) && ChecksumMatches(was, HeaderFrom(p))
    ensures var at := HeaderFrom(p); var end := BlockEnd(file, at);
            && p < end <= |file|
            && ReadAll(file, p, true) == (ReadAll(file, end, true).0, [end - at] + ReadAll(file, end, true).1)
  {
    hide ChecksumMatches, Damaged;
    DamageIsFound(file, was, HeaderFrom(p), i, n);
    assert IsWhole(file, HeaderFrom(p)) by { DamagedIsWhole(file, was, HeaderFrom(p), i, n); }
    DamageIsReported(file, p);
  }

  lemma DamagedIsWhole(file: Bytes, was: Bytes, at: nat, i: nat, n: nat)
    requires Damaged(file, was, at, i, n)
    ensures IsWhole(file, at)
  {
  }

  // Nothing goes missing

  function Sum(counts: seq<nat>): nat {
    if counts == [] then 0 else Sum(counts[..|counts| - 1]) + counts[|counts| - 1]
  }

  lemma {:induction false} SumJoins(a: seq<nat>, b: seq<nat>)
    ensures Sum(a + b) == Sum(a) + Sum(b)
  {
    if b == [] {
      assert a + b == a;
    } else {
      SumJoins(a, b[..|b| - 1]);
      assert (a + b)[..|a + b| - 1] == a + b[..|b| - 1];
    }
  }

  /** The payload of a piece; one whose kind is the code's own mark of a bad record is passed over. */
  function Weight(kind: Byte, data: Bytes): nat { if kind == BAD then 0 else |data| }

  /** What there is between two positions: the payloads of the pieces, and what is reported for blocks given up. */
  function Between(file: Bytes, p: nat, q: nat, checksum: bool): nat
    requires p <= |file|
    decreases |file| - p
  {
    if p >= q then 0
    else
      match ReadPhysical(file, p, checksum)
      case Eof => 0
      case Bad(next, dropped) => Sum(dropped) + Between(file, next, q, checksum)
      case Piece(kind, data, next) => Weight(kind, data) + Between(file, next, q, checksum)
  }

  /** Up to the end of the record returned, every byte of payload read is in that record or has been reported. */
  lemma {:induction false} NothingIsLost(file: Bytes, p: nat, scratch: Bytes, inRecord: bool, checksum: bool)
    requires p <= |file| && ReadLogical(file, p, scratch, inRecord, checksum).Record? && (inRecord || scratch == [])
    ensures var r := ReadLogical(file, p, scratch, inRecord, checksum);
            |r.data| + Sum(r.dropped) == |scratch| + Between(file, p, r.next, checksum)
    decreases |file| - p
  {
    hide ReadPhysical;
    var turn := TurnOn(ReadPhysical(file, p, checksum), scratch, inRecord);
    var r := ReadLogical(file, p, scratch, inRecord, checksum);
    assert p < r.next;
    Reported(ReadPhysical(file, p, checksum), scratch, inRecord);
    match turn
    case Stop(_) =>
    case Go(next, scratch2, inRecord2, reported) =>
      NothingIsLost(file, next, scratch2, inRecord2, checksum);
      SumJoins(reported, ReadLogical(file, next, scratch2, inRecord2, checksum).dropped);
  }

  /** One piece goes into the record or is reported, and so is what it puts an end to. */
  lemma Reported(found: Found, scratch: Bytes, inRecord: bool)
    requires inRecord || scratch == []
    ensures match TurnOn(found, scratch, inRecord)
            case Stop(Record(data, _, dropped)) =>
              found.Piece? && |data| + Sum(dropped) == |scratch| + Weight(found.kind, found.data)
            case Stop(End(_)) => true
            case Go(_, scratch2, inRecord2, reported) =>
              && (inRecord2 || scratch2 == [])
              && |scratch2| + Sum(reported) == |scratch| + match found {
                   case Eof => 0
                   case Bad(_, dropped) => Sum(dropped)
                   case Piece(kind, data, _) => Weight(kind, data)
                 }
  {
    forall n: nat ensures Sum([n]) == n { assert Sum([n]) == Sum([n][..0]) + n; }
    if found.Bad? { SumJoins(found.dropped, if inRecord then [|scratch|] else []); }
    assert found.Bad? ==> found.dropped + [] == found.dropped;
  }
}
