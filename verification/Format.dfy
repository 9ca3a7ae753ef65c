/** Block handles, the trailers of stored blocks, and the footer of a table file (table/format.h, table/format.cc). */
module TableFormat {
  import opened Wrappers
  import opened InternalKeys
  import opened Coding
  import Crc32c

  /** Where a block is stored: its first byte, and the length of its contents. */
  datatype Handle = Handle(offset: nat, size: nat)

  const HANDLE_MAX: nat := 20  // BlockHandle::kMaxEncodedLength
  const FOOTER_LENGTH: nat := 48
  const TRAILER: nat := 5      // a type byte and a checksum behind each block
  const NO_COMPRESSION: Byte := 0
  const SNAPPY: Byte := 1
  const MAGIC_LOW: U32 := 0x8b80_fb57
  const MAGIC_HIGH: U32 := 0xdb47_7524

  // Handles

  function EncodeHandle(h: Handle): Bytes { Varint(h.offset) + Varint(h.size) }

  function DecodeHandle(b: Bytes): Option<Parsed<Handle>> {
    match GetVarint64(b)
    case None => None
    case Some(offset) =>
      match GetVarint64(offset.rest)
      case None => None
      case Some(size) => Some(Parsed(Handle(offset.value, size.value), size.rest))
  }

  ghost predicate InWords(h: Handle) { h.offset < TWO_64 && h.size < TWO_64 }

  lemma HandleRoundTrip(h: Handle, rest: Bytes)
    requires InWords(h)
    ensures DecodeHandle(EncodeHandle(h) + rest) == Some(Parsed(h, rest))
  {
    hide Varint, GetVarint64;
    assert EncodeHandle(h) + rest == Varint(h.offset) + (Varint(h.size) + rest);
    Varint64RoundTrip(h.offset, Varint(h.size) + rest);
    Varint64RoundTrip(h.size, rest);
  }

  lemma {:induction false} VarintIsShort(v: nat, n: nat)
    requires n > 0 && v < Power(128, n)
    ensures |Varint(v)| <= n
  {
    if v >= 128 {
      assert Power(128, 1) == 128;
      VarintIsShort(v / 128, n - 1);
    }
  }

  lemma HandleIsShort(h: Handle)
    requires InWords(h)
    ensures |EncodeHandle(h)| <= HANDLE_MAX
  {
    hide Varint, Power;
    VarintPowers();
    VarintIsShort(h.offset, 10);
    VarintIsShort(h.size, 10);
  }

  // The footer

  function Padding(n: nat): (b: Bytes)
    ensures |b| == n
  {
    seq(n, _ => 0)
  }

  /** The two handles, cut or padded to their greatest length, and the magic number. */
  function EncodeFooter(metaindex: Handle, index: Handle): (b: Bytes)
    ensures |b| == FOOTER_LENGTH
  {
    var handles := EncodeHandle(metaindex) + EncodeHandle(index);
    (handles + Padding(2 * HANDLE_MAX))[..2 * HANDLE_MAX] + Fixed32(MAGIC_LOW) + Fixed32(MAGIC_HIGH)
  }

  datatype Footer = Footer(metaindex: Handle, index: Handle)

  function DecodeFooter(b: Bytes): Option<Footer>
    requires |b| == FOOTER_LENGTH
  {
    if DecodeFixed(b[40..44]) != MAGIC_LOW || DecodeFixed(b[44..]) != MAGIC_HIGH then None
    else
      match DecodeHandle(b)
      case None => None
      case Some(metaindex) =>
        match DecodeHandle(metaindex.rest)
        case None => None
        case Some(index) => Some(Footer(metaindex.value, index.value))
  }

  lemma FooterRoundTrip(metaindex: Handle, index: Handle)
    requires InWords(metaindex) && InWords(index)
    ensures DecodeFooter(EncodeFooter(metaindex, index)) == Some(Footer(metaindex, index))
  {
    hide EncodeHandle, DecodeHandle, Fixed, DecodeFixed;
    var b, m, i := EncodeFooter(metaindex, index), EncodeHandle(metaindex), EncodeHandle(index);
    HandleIsShort(metaindex);
    HandleIsShort(index);
    var padding := Padding(2 * HANDLE_MAX)[..2 * HANDLE_MAX - |m| - |i|];
    assert (m + i + Padding(2 * HANDLE_MAX))[..2 * HANDLE_MAX] == m + i + padding;
    var rest := padding + Fixed32(MAGIC_LOW) + Fixed32(MAGIC_HIGH);
    assert b == m + (i + rest);
    assert b[40..44] == Fixed32(MAGIC_LOW) && b[44..] == Fixed32(MAGIC_HIGH);
    FixedInverts(MAGIC_LOW, 0);
    FixedInverts(MAGIC_HIGH, 0);
    HandleRoundTrip(metaindex, i + rest);
    HandleRoundTrip(index, rest);
  }

  /** No footer but with the magic number of tables at its end, byte for byte. */
  lemma MagicIsRequired(b: Bytes)
    requires |b| == FOOTER_LENGTH && DecodeFooter(b).Some?
    ensures b[40..] == [0x57, 0xfb, 0x80, 0x8b, 0x24, 0x75, 0x47, 0xdb]
  {
    IsWord(b[40..44]);
    IsWord(b[44..]);
    WordBytes(b[40], b[41], b[42], b[43]);
    WordBytes(b[44], b[45], b[46], b[47]);
    hide DecodeFixed, DecodeHandle;
  }

  lemma IsWord(b: Bytes)
    requires |b| == 4
    ensures DecodeFixed(b) == b[0] as nat + 0x100 * b[1] as nat + 0x1_0000 * b[2] as nat + 0x100_0000 * b[3] as nat
  {
    assert b[1..][1..] == b[2..] && b[2..][1..] == b[3..] && b[3..][1..] == [];
    assert DecodeFixed(b[3..]) == b[3];
    assert DecodeFixed(b[2..]) == b[2] as nat + 0x100 * b[3] as nat;
  }

  lemma WordBytes(b0: Byte, b1: Byte, b2: Byte, b3: Byte)
    ensures var w := b0 as nat + 0x100 * b1 as nat + 0x1_0000 * b2 as nat + 0x100_0000 * b3 as nat;
            && (w == MAGIC_LOW ==> b0 == 0x57 && b1 == 0xfb && b2 == 0x80 && b3 == 0x8b)
            && (w == MAGIC_HIGH ==> b0 == 0x24 && b1 == 0x75 && b2 == 0x47 && b3 == 0xdb)
  {
  }

  // Stored blocks

  function Masked(data: Bytes): U32 { Crc32c.Mask(Crc32c.Value(data)) as int }

  /** The contents of a block, its type, and the checksum of both. */
  function Stored(contents: Bytes): (b: Bytes)
    ensures |b| == |contents| + TRAILER
  {
    contents + [NO_COMPRESSION] + Fixed32(Masked(contents + [NO_COMPRESSION]))
  }

  /** The file holds a block where the handle says. */
  ghost predicate Holds(file: Bytes, h: Handle, contents: Bytes) {
    h.size == |contents| && h.offset + h.size + TRAILER <= |file|
    && file[h.offset..h.offset + h.size + TRAILER] == Stored(contents)
  }

  datatype ReadError = Truncated | ChecksumMismatch | BadBlockType | Compressed

  datatype ReadResult = Contents(contents: Bytes) | Failed(error: ReadError)

  /** What the file gives when asked for `n` bytes from an offset on: less if it ends before. */
  function ReadAt(file: Bytes, offset: nat, n: nat): Bytes {
    if offset >= |file| then [] else if offset + n >= |file| then file[offset..] else file[offset..offset + n]
  }

  /** ReadBlock; blocks compressed by Snappy are told apart from the others and not read. */
  function ReadBlock(file: Bytes, verifyChecksums: bool, h: Handle): ReadResult {
    var n, b := h.size, ReadAt(file, h.offset, h.size + TRAILER);
    if |b| != n + TRAILER then Failed(Truncated)
    else if verifyChecksums && !ChecksumOk(b[n + 1..], b[..n + 1]) then Failed(ChecksumMismatch)
    else if b[n] == NO_COMPRESSION then Contents(b[..n])
    else if b[n] == SNAPPY then Failed(Compressed)
    else Failed(BadBlockType)
  }

  predicate ChecksumOk(stored: Bytes, data: Bytes)
    requires |stored| == 4
  {
    DecodeFixedBound(stored);
    Powers();
    Crc32c.Matches(DecodeFixed(stored), data)
  }

  /** A stored block is read back, with or without the test of its checksum. */
  lemma StoredIsRead(file: Bytes, verifyChecksums: bool, h: Handle, contents: Bytes)
    requires Holds(file, h, contents)
    ensures ReadBlock(file, verifyChecksums, h) == Contents(contents)
  {
    hide Fixed, DecodeFixed;
    var n, b := h.size, ReadAt(file, h.offset, h.size + TRAILER);
    assert b == Stored(contents);
    var data := contents + [NO_COMPRESSION];
    assert b[..n + 1] == data && b[n + 1..] == Fixed32(Masked(data)) && b[..n] == contents;
    FixedInverts(Masked(data), 0);
    Crc32c.StoredMatches(data);
  }

  /** A block whose checksum does not match its bytes is not read when checksums are tested. */
  lemma ReadMatches(file: Bytes, h: Handle)
    requires ReadBlock(file, true, h).Contents?
    ensures ChecksumOk(ReadAt(file, h.offset, h.size + TRAILER)[h.size + 1..], ReadBlock(file, true, h).contents + [NO_COMPRESSION])
  {
    var n, b := h.size, ReadAt(file, h.offset, h.size + TRAILER);
    assert b[..n + 1] == b[..n] + [b[n]];
  }

  /** What is appended to a file leaves its blocks as they are. */
  lemma HoldsOn(file: Bytes, more: Bytes, h: Handle, contents: Bytes)
    requires Holds(file, h, contents)
    ensures Holds(file + more, h, contents)
  {
    hide Stored;
    var end := h.offset + h.size + TRAILER;
    assert (file + more)[h.offset..end] == file[h.offset..end];
  }
}
