/** On-disk layouts of the block store: the index header, the index slots and the block entry header. */
module BlockFormat {
  import opened Bytes

  const INDEX_FILE_VERSION: u64 := 1
  const BLOCK_ENTRY_VERSION: u16 := 1
  const UNSET_HEIGHT: u64 := U64_MAX
  const SIZE_OF_BLOCK_ENTRY_HEADER: nat := 22
  const SIZE_OF_INDEX_ENTRY: nat := 16
  const SIZE_OF_INDEX_FILE_HEADER: nat := 64

  datatype Error =
    | Closed
    | NotFound
    | InvalidBlockHeight
    | Corrupted
    | BlockTooLarge
    | Overflow
    | ChecksumMismatch
    | UnexpectedEof
    | Compression

  datatype Result<+T> = Ok(value: T) | Err(error: Error)

  /** Layout: height(8) | size(4) | checksum(8) | version(2). */
  datatype BlockEntryHeader = BlockEntryHeader(height: u64, size: u32, checksum: u64, version: u16) {
    function Marshal(): (r: bytes)
      ensures |r| == SIZE_OF_BLOCK_ENTRY_HEADER
    {
      LE(height, 8) + LE(size, 4) + LE(checksum, 8) + LE(version, 2)
    }
  }

  /** Layout: offset(8) | size(4) | four zero bytes. */
  datatype IndexEntry = IndexEntry(offset: u64, size: u32) {
    function Marshal(): (r: bytes)
      ensures |r| == SIZE_OF_INDEX_ENTRY
    {
      LE(offset, 8) + LE(size, 4) + LE(0, 4)
    }

    predicate IsEmpty() {
      offset == 0 && size == 0
    }
  }

  /** Layout: five u64 fields, then 24 zero bytes. */
  datatype IndexFileHeader = IndexFileHeader(
    version: u64, maxDataFileSize: u64, minHeight: u64, maxHeight: u64, nextWriteOffset: u64)
  {
    function Marshal(): (r: bytes)
      ensures |r| == SIZE_OF_INDEX_FILE_HEADER
    {
      LE(version, 8) + LE(maxDataFileSize, 8) + LE(minHeight, 8) + LE(maxHeight, 8)
      + LE(nextWriteOffset, 8) + LE(0, 24)
    }
  }

  function Read64(s: bytes, off: nat): u64
    requires off + 8 <= |s|
  {
    Pow256Values();
    FromLE(s[off..off + 8])
  }

  function Read32(s: bytes, off: nat): u32
    requires off + 4 <= |s|
  {
    Pow256Values();
    FromLE(s[off..off + 4])
  }

  function Read16(s: bytes, off: nat): u16
    requires off + 2 <= |s|
  {
    Pow256Values();
    FromLE(s[off..off + 2])
  }

  function UnmarshalBlockEntryHeader(s: bytes): Result<BlockEntryHeader> {
    if |s| != SIZE_OF_BLOCK_ENTRY_HEADER then Err(Corrupted)
    else Ok(BlockEntryHeader(Read64(s, 0), Read32(s, 8), Read64(s, 12), Read16(s, 20)))
  }

  function UnmarshalIndexEntry(s: bytes): Result<IndexEntry> {
    if |s| != SIZE_OF_INDEX_ENTRY then Err(Corrupted)
    else Ok(IndexEntry(Read64(s, 0), Read32(s, 8)))
  }

  function UnmarshalIndexFileHeader(s: bytes): Result<IndexFileHeader> {
    if |s| != SIZE_OF_INDEX_FILE_HEADER then Err(Corrupted)
    else Ok(IndexFileHeader(Read64(s, 0), Read64(s, 8), Read64(s, 16), Read64(s, 24), Read64(s, 32)))
  }

  /** The second of three parts. */
  lemma Middle(a: bytes, b: bytes, c: bytes, s: bytes, i: nat, n: nat)
    requires s == a + b + c && i == |a| && n == |b|
    ensures i + n <= |s| && s[i..i + n] == b
  {
  }

  lemma FourParts(a: bytes, b: bytes, c: bytes, d: bytes, s: bytes)
    requires |a| == 8 && |b| == 4 && |c| == 8 && |d| == 2 && s == a + b + c + d
    ensures |s| == 22 && s[0..0 + 8] == a && s[8..8 + 4] == b && s[12..12 + 8] == c && s[20..20 + 2] == d
  {
    assert s == [] + a + (b + c + d);
    assert s == a + b + (c + d);
    assert s == (a + b) + c + d;
    assert s == (a + b + c) + d + [];
    Middle([], a, b + c + d, s, 0, 8);
    Middle(a, b, c + d, s, 8, 4);
    Middle(a + b, c, d, s, 12, 8);
    Middle(a + b + c, d, [], s, 20, 2);
  }

  lemma SixParts(a: bytes, b: bytes, c: bytes, d: bytes, e: bytes, z: bytes, s: bytes)
    requires |a| == 8 && |b| == 8 && |c| == 8 && |d| == 8 && |e| == 8 && s == a + b + c + d + e + z
    ensures |s| == 40 + |z| && s[0..0 + 8] == a && s[8..8 + 8] == b && s[16..16 + 8] == c
    ensures |s| == 40 + |z| && s[24..24 + 8] == d && s[32..32 + 8] == e
  {
    assert s == [] + a + (b + c + d + e + z);
    assert s == a + b + (c + d + e + z);
    assert s == (a + b) + c + (d + e + z);
    assert s == (a + b + c) + d + (e + z);
    Middle([], a, b + c + d + e + z, s, 0, 8);
    Middle(a, b, c + d + e + z, s, 8, 8);
    Middle(a + b, c, d + e + z, s, 16, 8);
    Middle(a + b + c, d, e + z, s, 24, 8);
    Middle(a + b + c + d, e, z, s, 32, 8);
  }

  lemma BlockEntryHeaderRoundTrip(h: BlockEntryHeader)
    ensures UnmarshalBlockEntryHeader(h.Marshal()) == Ok(h)
  {
    FourParts(LE(h.height, 8), LE(h.size, 4), LE(h.checksum, 8), LE(h.version, 2), h.Marshal());
    LE64(h.height); LE32(h.size); LE64(h.checksum); LE16(h.version);
  }

  /** Bytes that read as a header are its bytes. */
  lemma HeaderBytes(s: bytes, h: BlockEntryHeader)
    requires UnmarshalBlockEntryHeader(s) == Ok(h)
    ensures s == h.Marshal()
  {
    LECanonical(s[0..8]); LECanonical(s[8..12]); LECanonical(s[12..20]); LECanonical(s[20..22]);
    assert s == s[0..8] + s[8..12] + s[12..20] + s[20..22];
  }

  lemma IndexEntryRoundTrip(e: IndexEntry)
    ensures UnmarshalIndexEntry(e.Marshal()) == Ok(e)
  {
    var a, b, z := LE(e.offset, 8), LE(e.size, 4), LE(0, 4);
    assert e.Marshal() == [] + a + (b + z);
    Middle([], a, b + z, e.Marshal(), 0, 8);
    Middle(a, b, z, e.Marshal(), 8, 4);
    LE64(e.offset); LE32(e.size);
  }

  lemma IndexFileHeaderRoundTrip(h: IndexFileHeader)
    ensures UnmarshalIndexFileHeader(h.Marshal()) == Ok(h)
  {
    SixParts(LE(h.version, 8), LE(h.maxDataFileSize, 8), LE(h.minHeight, 8), LE(h.maxHeight, 8),
             LE(h.nextWriteOffset, 8), LE(0, 24), h.Marshal());
    LE64(h.version); LE64(h.maxDataFileSize); LE64(h.minHeight); LE64(h.maxHeight); LE64(h.nextWriteOffset);
  }

  // ----- the bytes at each offset, least significant first -----

  lemma BlockEntryHeaderAt(h: BlockEntryHeader, i: nat)
    requires i < 22
    ensures h.Marshal()[i]
         == if i < 8 then Digit(h.height, i)
            else if i < 12 then Digit(h.size, i - 8)
            else if i < 20 then Digit(h.checksum, i - 12)
            else Digit(h.version, i - 20)
  {
    if i < 8 { LEAt(h.height, 8, i); }
    else if i < 12 { LEAt(h.size, 4, i - 8); }
    else if i < 20 { LEAt(h.checksum, 8, i - 12); }
    else { LEAt(h.version, 2, i - 20); }
  }

  lemma IndexEntryAt(e: IndexEntry, i: nat)
    requires i < 16
    ensures e.Marshal()[i] == if i < 8 then Digit(e.offset, i) else if i < 12 then Digit(e.size, i - 8) else 0
  {
    if i < 8 { LEAt(e.offset, 8, i); }
    else if i < 12 { LEAt(e.size, 4, i - 8); }
    else { LEZero(4, i - 12); }
  }

  lemma IndexFileHeaderAt(h: IndexFileHeader, i: nat)
    requires i < 64
    ensures h.Marshal()[i]
         == if i < 8 then Digit(h.version, i)
            else if i < 16 then Digit(h.maxDataFileSize, i - 8)
            else if i < 24 then Digit(h.minHeight, i - 16)
            else if i < 32 then Digit(h.maxHeight, i - 24)
            else if i < 40 then Digit(h.nextWriteOffset, i - 32)
            else 0
  {
    if i < 8 { LEAt(h.version, 8, i); }
    else if i < 16 { LEAt(h.maxDataFileSize, 8, i - 8); }
    else if i < 24 { LEAt(h.minHeight, 8, i - 16); }
    else if i < 32 { LEAt(h.maxHeight, 8, i - 24); }
    else if i < 40 { LEAt(h.nextWriteOffset, 8, i - 32); }
    else { LEZero(24, i - 40); }
  }

  lemma {:induction false} LEZero(n: nat, i: nat)
    requires i < n
    ensures LE(0, n)[i] == 0
  {
    if i > 0 { LEZero(n - 1, i - 1); }
  }

  predicate AllZero(s: bytes) {
    forall i :: 0 <= i < |s| ==> s[i] == 0
  }

  /** A hole in the index file reads as an empty slot, and as a header of version 0. */
  lemma ZerosAreEmpty(s: bytes)
    requires AllZero(s)
    ensures |s| == SIZE_OF_INDEX_ENTRY ==> UnmarshalIndexEntry(s) == Ok(IndexEntry(0, 0))
    ensures |s| == SIZE_OF_INDEX_FILE_HEADER ==> UnmarshalIndexFileHeader(s) == Ok(IndexFileHeader(0, 0, 0, 0, 0))
  {
    if |s| == SIZE_OF_INDEX_ENTRY {
      FromLEZeros(s[0..8]); FromLEZeros(s[8..12]);
    }
    if |s| == SIZE_OF_INDEX_FILE_HEADER {
      FromLEZeros(s[0..8]); FromLEZeros(s[8..16]); FromLEZeros(s[16..24]);
      FromLEZeros(s[24..32]); FromLEZeros(s[32..40]);
    }
  }
}
