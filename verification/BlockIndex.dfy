/** The index file: a 64-byte header followed by one 16-byte slot per height, over a file whose
    writes stay in the page cache until the next fsync. */
module BlockIndex {
  import opened Bytes
  import opened BlockFormat

  // ----- positioned file writes -----

  /** A positioned write; a write past the end of the file fills the hole with zeros. */
  function WriteAt(f: bytes, off: nat, data: bytes): (r: bytes)
    ensures |r| == if off + |data| <= |f| then |f| else off + |data|
  {
    seq(if off + |data| <= |f| then |f| else off + |data|,
        i requires 0 <= i =>
          if off <= i < off + |data| then data[i - off] else if i < |f| then f[i] else 0)
  }

  datatype Write = Write(off: nat, data: bytes)

  function ApplyWrites(f: bytes, ws: seq<Write>): bytes {
    if ws == [] then f
    else
      var w := ws[|ws| - 1];
      WriteAt(ApplyWrites(f, ws[..|ws| - 1]), w.off, w.data)
  }

  /** The writes that reached the disk before a power failure: any subset, in order. */
  function Kept(ws: seq<Write>, keep: seq<bool>): (r: seq<Write>)
    requires |ws| == |keep|
    ensures forall w :: w in r ==> w in ws
  {
    if ws == [] then []
    else
      var n := |ws| - 1;
      Kept(ws[..n], keep[..n]) + (if keep[n] then [ws[n]] else [])
  }

  /** What is on the platter, and the writes issued since the last fsync. */
  datatype IndexFile = IndexFile(durable: bytes, pending: seq<Write>) {
    function Visible(): bytes {
      ApplyWrites(durable, pending)
    }

    function Append(w: Write): (r: IndexFile)
      ensures r.Visible() == WriteAt(Visible(), w.off, w.data)
    {
      assert (pending + [w])[..|pending|] == pending;
      IndexFile(durable, pending + [w])
    }

    function Sync(): (r: IndexFile)
      ensures r.Visible() == Visible()
    {
      IndexFile(Visible(), [])
    }

    function PowerLoss(keep: seq<bool>): IndexFile
      requires |keep| == |pending|
    {
      IndexFile(ApplyWrites(durable, Kept(pending, keep)), [])
    }
  }

  // ----- header and slots -----

  function IndexEntryOffset(minHeight: u64, height: u64): Result<u64> {
    if height < minHeight then Err(InvalidBlockHeight)
    else
      var off := (height - minHeight) * SIZE_OF_INDEX_ENTRY;
      if off > U64_MAX || SIZE_OF_INDEX_FILE_HEADER + off > U64_MAX then Err(InvalidBlockHeight)
      else Ok(SIZE_OF_INDEX_FILE_HEADER + off)
  }

  predicate HasSlot(minHeight: u64, height: u64) {
    IndexEntryOffset(minHeight, height).Ok?
  }

  function ReadHeader(b: bytes): Result<IndexFileHeader> {
    if |b| < SIZE_OF_INDEX_FILE_HEADER then Err(UnexpectedEof)
    else UnmarshalIndexFileHeader(b[..SIZE_OF_INDEX_FILE_HEADER])
  }

  /** The raw slot at off, if the file reaches that far. */
  function SlotBytes(b: bytes, off: nat): Option<bytes> {
    if |b| < off + SIZE_OF_INDEX_ENTRY then None else Some(b[off..off + SIZE_OF_INDEX_ENTRY])
  }

  /** A slot past the end of the file or all zero holds nothing. */
  function DecodeSlot(s: Option<bytes>): Result<IndexEntry> {
    match s
    case None => Err(NotFound)
    case Some(raw) =>
      match UnmarshalIndexEntry(raw)
      case Err(e) => Err(e)
      case Ok(entry) => if entry.IsEmpty() then Err(NotFound) else Ok(entry)
  }

  function ReadIndexEntry(b: bytes, minHeight: u64, height: u64): Result<IndexEntry> {
    match IndexEntryOffset(minHeight, height)
    case Err(e) => Err(e)
    case Ok(off) => DecodeSlot(SlotBytes(b, off))
  }

  /** The file ends on a slot boundary. */
  predicate Aligned(b: bytes) {
    |b| >= SIZE_OF_INDEX_FILE_HEADER && (|b| - SIZE_OF_INDEX_FILE_HEADER) % SIZE_OF_INDEX_ENTRY == 0
  }

  function SlotWrite(minHeight: u64, height: u64, e: IndexEntry): Write
    requires HasSlot(minHeight, height)
  {
    Write(IndexEntryOffset(minHeight, height).value, e.Marshal())
  }

  function HeaderWrite(h: IndexFileHeader): Write {
    Write(0, h.Marshal())
  }

  function Do(b: bytes, w: Write): bytes {
    WriteAt(b, w.off, w.data)
  }

  lemma WriteAtReads(b: bytes, off: nat, data: bytes)
    ensures WriteAt(b, off, data)[off..off + |data|] == data
  {
  }

  /** A range disjoint from the write reads as before, or as zeros where it was past the end. */
  lemma WriteAtKeeps(b: bytes, off: nat, data: bytes, o: nat, n: nat)
    requires o + n <= off || off + |data| <= o
    ensures o + n <= |b| ==> WriteAt(b, off, data)[o..o + n] == b[o..o + n]
    ensures |b| <= o && o + n <= |WriteAt(b, off, data)| ==> AllZero(WriteAt(b, off, data)[o..o + n])
  {
    var w := WriteAt(b, off, data);
    if o + n <= |b| {
      assert forall i :: o <= i < o + n ==> w[i] == b[i];
    }
  }

  lemma SlotKept(b: bytes, off: nat, data: bytes, o: nat)
    requires Aligned(b) && (o - 64) % 16 == 0 && o >= 64
    requires o + 16 <= off || off + |data| <= o
    ensures DecodeSlot(SlotBytes(WriteAt(b, off, data), o)) == DecodeSlot(SlotBytes(b, o))
  {
    WriteAtKeeps(b, off, data, o, 16);
    if |b| <= o && o + 16 <= |WriteAt(b, off, data)| {
      ZerosAreEmpty(WriteAt(b, off, data)[o..o + 16]);
    }
  }

  lemma DistinctSlots(minHeight: u64, height: u64, other: u64)
    requires HasSlot(minHeight, height) && HasSlot(minHeight, other) && other != height
    ensures var x: nat, y: nat := IndexEntryOffset(minHeight, height).value, IndexEntryOffset(minHeight, other).value;
            && (x + 16 <= y || y + 16 <= x)
  {
  }

  /** A slot write is read back, keeps the header and keeps every other slot, holes included. */
  lemma SlotWriteFrame(b: bytes, minHeight: u64, height: u64, e: IndexEntry, other: u64)
    requires Aligned(b) && HasSlot(minHeight, height) && !e.IsEmpty()
    ensures var b' := Do(b, SlotWrite(minHeight, height, e));
            && Aligned(b')
            && ReadHeader(b') == ReadHeader(b)
            && ReadIndexEntry(b', minHeight, height) == Ok(e)
            && (other != height ==> ReadIndexEntry(b', minHeight, other) == ReadIndexEntry(b, minHeight, other))
  {
    var off: nat := IndexEntryOffset(minHeight, height).value;
    var m := e.Marshal();
    WriteAtReads(b, off, m);
    IndexEntryRoundTrip(e);
    WriteAtKeeps(b, off, m, 0, 64);
    assert WriteAt(b, off, m)[..64] == b[..64] by {
      assert WriteAt(b, off, m)[..64] == WriteAt(b, off, m)[0..0 + 64] == b[0..0 + 64];
    }
    if other != height && HasSlot(minHeight, other) {
      DistinctSlots(minHeight, height, other);
      SlotKept(b, off, m, IndexEntryOffset(minHeight, other).value);
    }
  }

  lemma HeaderBytesFrame(b: bytes, m: bytes, minHeight: u64, other: u64)
    requires |m| == 64 && (Aligned(b) || b == [])
    ensures Aligned(WriteAt(b, 0, m))
    ensures ReadHeader(WriteAt(b, 0, m)) == UnmarshalIndexFileHeader(m)
    ensures ReadIndexEntry(WriteAt(b, 0, m), minHeight, other) == ReadIndexEntry(b, minHeight, other)
  {
    assert WriteAt(b, 0, m)[..64] == m;
    if Aligned(b) && HasSlot(minHeight, other) {
      SlotKept(b, 0, m, IndexEntryOffset(minHeight, other).value);
    }
  }

  /** A header write is read back and keeps every slot. */
  lemma HeaderWriteFrame(b: bytes, h: IndexFileHeader, minHeight: u64, other: u64)
    requires Aligned(b) || b == []
    ensures var b' := Do(b, HeaderWrite(h));
            && Aligned(b')
            && ReadHeader(b') == Ok(h)
            && ReadIndexEntry(b', minHeight, other) == ReadIndexEntry(b, minHeight, other)
  {
    IndexFileHeaderRoundTrip(h);
    HeaderBytesFrame(b, h.Marshal(), minHeight, other);
  }

  /** A header write is read back whatever the file held. */
  lemma HeaderReads(b: bytes, h: IndexFileHeader)
    ensures ReadHeader(Do(b, HeaderWrite(h))) == Ok(h)
  {
    hide WriteAt, UnmarshalIndexFileHeader;
    IndexFileHeaderRoundTrip(h);
    var w := WriteAt(b, 0, h.Marshal());
    WriteAtReads(b, 0, h.Marshal());
    assert w[..SIZE_OF_INDEX_FILE_HEADER] == w[0..0 + SIZE_OF_INDEX_FILE_HEADER];
  }
}
