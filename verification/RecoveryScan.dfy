/** The recovery scan on files that need not come from a history: where it stops and what it writes. */
module RecoveryScan {
  import opened Bytes
  import opened BlockFormat
  import opened BlockIndex
  import opened DataFiles
  import opened BlockLog
  import opened Recovery

  /** The data ends at end, in file last: files behind it, if any, hold nothing. */
  predicate EndsAt(p: Params, files: Files, end: nat, last: nat) {
    && p.maxFile > 0 && last in files && (forall j :: j in files && j > last ==> files[j] == [])
    && end == FileStart(last, p.maxFile) + |files[last]|
  }

  /** The last file, of len bytes, is no longer than a file may be, or ends where no block header fits between the
      last multiple of the file size and the end, or where the next multiple is past u64. */
  predicate Contained(p: Params, len: nat, end: nat)
    requires p.maxFile > 0
  {
    || len <= p.maxFile
    || LocalOf(end, p.maxFile) < SIZE_OF_BLOCK_ENTRY_HEADER
    || FileStart(FileOf(end, p.maxFile) + 1, p.maxFile) > U64_MAX
  }

  lemma TouchKeepsEnd(p: Params, files: Files, off: nat, end: nat, last: nat)
    requires EndsAt(p, files, end, last)
    ensures EndsAt(p, Touch(files, off, p.maxFile), end, last) && Touch(files, off, p.maxFile)[last] == files[last]
  {
  }

  lemma RecoverKeepsEnd(p: Params, d: Disk, off: u64, end: u64, last: nat)
    requires EndsAt(p, d.files, end, last)
    ensures EndsAt(p, RecoverBlockAt(p, d, off, end).1.files, end, last)
    ensures RecoverBlockAt(p, d, off, end).1.files[last] == d.files[last]
  {
    TouchKeepsEnd(p, d.files, off, end, last);
    TouchKeepsEnd(p, Touch(d.files, off, p.maxFile), off as nat + SIZE_OF_BLOCK_ENTRY_HEADER, end, last);
  }

  /** Reading bytes of the last file cannot hit end of file. */
  lemma NoEofInLast(p: Params, files: Files, off: nat, n: nat, end: nat, last: nat)
    requires EndsAt(p, files, end, last) && off + n <= end && n > 0 && FileOf(off, p.maxFile) == last
    ensures ReadData(files, off, n, p.maxFile) != Err(UnexpectedEof)
  {
    SplitJoin(off, p.maxFile);
  }

  lemma RecoverInLast(p: Params, d: Disk, off: u64, end: u64, last: nat)
    requires EndsAt(p, d.files, end, last) && off < end && FileOf(off, p.maxFile) == FileOf(end, p.maxFile) == last
    ensures RecoverBlockAt(p, d, off, end).0 != Err(UnexpectedEof)
  {
    if end - off >= SIZE_OF_BLOCK_ENTRY_HEADER {
      var f1 := Touch(d.files, off, p.maxFile);
      TouchKeepsEnd(p, d.files, off, end, last);
      NoEofInLast(p, f1, off, SIZE_OF_BLOCK_ENTRY_HEADER, end, last);
      var bh := ReadBlockHeader(p, f1, off, end);
      if bh.Ok? {
        var at := off as nat + SIZE_OF_BLOCK_ENTRY_HEADER;
        TouchKeepsEnd(p, f1, at, end, last);
        FileOfMonotone(off, at, p.maxFile);
        FileOfMonotone(at, end, p.maxFile);
        NoEofInLast(p, Touch(f1, at, p.maxFile), at, bh.value.size, end, last);
      }
    }
  }

  /** Between the last file and the file of the end: only a file that is too long has both apart. */
  lemma EndFile(p: Params, files: Files, end: nat, last: nat, off: nat)
    requires EndsAt(p, files, end, last) && off < end && FileOf(off, p.maxFile) == FileOf(end, p.maxFile) != last
    ensures |files[last]| > p.maxFile && end - off <= LocalOf(end, p.maxFile)
  {
    SplitJoin(off, p.maxFile);
    SplitJoin(end, p.maxFile);
    JoinSplit(last, 0, p.maxFile);
    FileOfMonotone(FileStart(last, p.maxFile), end, p.maxFile);
    FileStartMonotone(last + 1, FileOf(end, p.maxFile), p.maxFile);
  }

  /** An end of file before the file of the end makes the scan jump to or before the end. */
  lemma JumpStaysBefore(p: Params, off: nat, end: nat)
    requires p.maxFile > 0 && FileOf(off, p.maxFile) < FileOf(end, p.maxFile)
    ensures FileStart(FileOf(off, p.maxFile) + 1, p.maxFile) <= end
  {
    SplitJoin(end, p.maxFile);
    FileStartMonotone(FileOf(off, p.maxFile) + 1, FileOf(end, p.maxFile), p.maxFile);
  }

  lemma EofJumps(p: Params, d: Disk, off: u64, end: u64, last: nat)
    requires EndsAt(p, d.files, end, last) && Contained(p, |d.files[last]|, end) && off < end
    requires RecoverBlockAt(p, d, off, end).0 == Err(UnexpectedEof)
    ensures var next := FileStart(FileOf(off, p.maxFile) + 1, p.maxFile);
            next <= end || next > U64_MAX
  {
    hide RecoverBlockAt, FileOf, LocalOf, FileStart;
    FileOfMonotone(off, end, p.maxFile);
    if FileOf(off, p.maxFile) < FileOf(end, p.maxFile) {
      JumpStaysBefore(p, off, end);
    } else if FileOf(end, p.maxFile) == last {
      RecoverInLast(p, d, off, end, last);
    } else {
      EndFile(p, d.files, end, last, off);
      EofHasRoom(p, d, off, end);
    }
  }

  lemma EofHasRoom(p: Params, d: Disk, off: u64, end: u64)
    requires p.maxFile > 0 && off < end && RecoverBlockAt(p, d, off, end).0 == Err(UnexpectedEof)
    ensures end - off >= SIZE_OF_BLOCK_ENTRY_HEADER
  {
  }

  /** One iteration moves forward and never past the end. */
  lemma StepStaysInside(p: Params, d: Disk, c: Cursor, end: u64, last: nat)
    requires EndsAt(p, d.files, end, last) && Contained(p, |d.files[last]|, end) && c.scan < end
    ensures var (r, d') := ScanStep(p, d, c, end);
            && EndsAt(p, d'.files, end, last) && d'.files[last] == d.files[last]
            && (r.Ok? ==> c.scan < r.value.scan <= end)
  {
    hide Contained, FileOf, LocalOf, FileStart, ReadBlockHeader, CheckPayload;
    RecoverKeepsEnd(p, d, c.scan, end, last);
    if RecoverBlockAt(p, d, c.scan, end).0 == Err(UnexpectedEof) { EofJumps(p, d, c.scan, end, last); }
  }

  /** A scan that succeeds stops exactly at the on-disk end. */
  lemma {:induction false} ScanStopsAtEnd(p: Params, d: Disk, c: Cursor, end: u64, last: nat)
    requires EndsAt(p, d.files, end, last) && Contained(p, |d.files[last]|, end) && c.scan <= end
    ensures Scan(p, d, c, end).0.Ok? ==> Scan(p, d, c, end).0.value.scan == end
    decreases end as int - c.scan as int
  {
    hide ScanStep, Contained;
    if c.scan < end {
      StepStaysInside(p, d, c, end, last);
      var (r, d') := ScanStep(p, d, c, end);
      if r.Ok? { ScanStopsAtEnd(p, d', r.value, end, last); }
    }
  }

  /** Otherwise it can start at the last multiple of the file size, find no file there, and jump past the end. */
  lemma ScanJumpsPast(p: Params, d: Disk, end: u64, last: nat) returns (c: Cursor)
    requires EndsAt(p, d.files, end, last) && !Contained(p, |d.files[last]|, end)
    ensures c.scan < end && c == Cursor(FileStart(FileOf(end, p.maxFile), p.maxFile), 0, 0)
    ensures Scan(p, d, c, end).0.Ok? && Scan(p, d, c, end).0.value.scan > end
  {
    hide FileOf, LocalOf, FileStart;
    var q := FileOf(end, p.maxFile);
    SplitJoin(end, p.maxFile);
    JoinSplit(q, 0, p.maxFile);
    c := Cursor(FileStart(q, p.maxFile), 0, 0);
    PastLast(p, d.files, end, last);
    NextStart(q, p.maxFile);
    EmptyFileJumps(p, d, c, end);
  }

  lemma NextStart(q: nat, max: nat)
    ensures FileStart(q + 1, max) == FileStart(q, max) + max
  {
  }

  lemma PastLast(p: Params, files: Files, end: nat, last: nat)
    requires EndsAt(p, files, end, last) && |files[last]| > p.maxFile
    ensures FileOf(end, p.maxFile) > last
  {
    JoinSplit(last + 1, 0, p.maxFile);
    FileOfMonotone(FileStart(last + 1, p.maxFile), end, p.maxFile);
  }

  lemma EmptyFileJumps(p: Params, d: Disk, c: Cursor, end: u64)
    requires p.maxFile > 0 && c.scan < end && end - c.scan >= SIZE_OF_BLOCK_ENTRY_HEADER
    requires var q := FileOf(c.scan, p.maxFile);
             Contents(d.files, q) == [] && end < FileStart(q + 1, p.maxFile) <= U64_MAX
    ensures Scan(p, d, c, end).0 == Ok(c.(scan := FileStart(FileOf(c.scan, p.maxFile) + 1, p.maxFile)))
  {
    hide FileOf, LocalOf, FileStart;
    var next := c.(scan := FileStart(FileOf(c.scan, p.maxFile) + 1, p.maxFile));
    var (r, d') := ScanStep(p, d, c, end);
    assert r == Ok(next);
    assert Scan(p, d', next, end) == (Ok(next), d');
  }

  /** Over all positions the header may give: the scan always stops at the on-disk end when it succeeds, if and
      only if the last file is contained. */
  lemma ScanStopsAtEndIff(p: Params, files: Files, end: u64, last: nat)
    requires EndsAt(p, files, end, last)
    ensures (forall d: Disk, c: Cursor :: d.files == files && c.scan <= end && Scan(p, d, c, end).0.Ok? ==>
                Scan(p, d, c, end).0.value.scan == end)
       <==> Contained(p, |files[last]|, end)
  {
    hide Scan, Contained;
    if Contained(p, |files[last]|, end) {
      forall d: Disk, c: Cursor | d.files == files && c.scan <= end && Scan(p, d, c, end).0.Ok?
        ensures Scan(p, d, c, end).0.value.scan == end
      {
        ScanStopsAtEnd(p, d, c, end, last);
      }
    } else {
      var d := Disk(IndexFile([], []), files);
      var c := ScanJumpsPast(p, d, end, last);
      assert d.files == files && Scan(p, d, c, end).0.value.scan != end;
    }
  }

  // ----- one block -----

  /** The n bytes at a global offset, if its file has them. */
  function BytesAt(p: Params, files: Files, off: nat, n: nat): Option<bytes>
    requires p.maxFile > 0
  {
    var f, l := Contents(files, FileOf(off, p.maxFile)), LocalOf(off, p.maxFile);
    if l + n <= |f| then Some(f[l..l + n]) else None
  }

  /** A header that names a block within the data, of a known version, at a height that can be indexed. */
  predicate GoodHeader(p: Params, bh: BlockEntryHeader, off: nat, total: nat) {
    && bh.size > 0 && off + SIZE_OF_BLOCK_ENTRY_HEADER + bh.size as nat <= total
    && bh.version <= 1
    && p.minHeight <= bh.height < U64_MAX
  }

  /** What is on the disk at off: the bytes of the header bh, and behind them bytes that decompress to a block with
      the checksum that bh names. */
  predicate BlockOnDisk(p: Params, files: Files, off: nat, bh: BlockEntryHeader, block: bytes)
    requires p.maxFile > 0
  {
    && BytesAt(p, files, off, SIZE_OF_BLOCK_ENTRY_HEADER) == Some(bh.Marshal())
    && var payload := BytesAt(p, files, off + SIZE_OF_BLOCK_ENTRY_HEADER, bh.size as nat);
       payload.Some? && p.decompress(payload.value) == Some(block) && p.checksum(block) == bh.checksum
  }

  ghost predicate Acceptable(p: Params, files: Files, off: nat, total: nat, bh: BlockEntryHeader)
    requires p.maxFile > 0
  {
    && GoodHeader(p, bh, off, total) && HasSlot(p.minHeight, bh.height)
    && exists block :: BlockOnDisk(p, files, off, bh, block)
  }

  lemma TouchReads(p: Params, files: Files, at: nat, off: nat, n: nat)
    requires p.maxFile > 0
    ensures ReadData(Touch(files, at, p.maxFile), off, n, p.maxFile) == ReadData(files, off, n, p.maxFile)
    ensures BytesAt(p, Touch(files, at, p.maxFile), off, n) == BytesAt(p, files, off, n)
  {
    assert Contents(Touch(files, at, p.maxFile), FileOf(off, p.maxFile)) == Contents(files, FileOf(off, p.maxFile));
  }

  /** Reading the header bytes: the header is the one whose bytes they are. */
  lemma HeaderIsBytes(s: bytes, bh: BlockEntryHeader)
    ensures UnmarshalBlockEntryHeader(s) == Ok(bh) <==> s == bh.Marshal()
  {
    if s == bh.Marshal() {
      BlockEntryHeaderRoundTrip(bh);
    } else if UnmarshalBlockEntryHeader(s) == Ok(bh) {
      HeaderBytes(s, bh);
    }
  }

  lemma HeaderReadIff(p: Params, files: Files, off: u64, total: u64, bh: BlockEntryHeader)
    requires p.maxFile > 0
    ensures ReadBlockHeader(p, files, off, total) == Ok(bh)
       <==> GoodHeader(p, bh, off, total) && BytesAt(p, files, off, SIZE_OF_BLOCK_ENTRY_HEADER) == Some(bh.Marshal())
  {
    hide FileOf, LocalOf, UnmarshalBlockEntryHeader;
    var s := BytesAt(p, files, off, SIZE_OF_BLOCK_ENTRY_HEADER);
    if s.Some? { HeaderIsBytes(s.value, bh); }
  }

  lemma PayloadIff(p: Params, files: Files, off: u64, bh: BlockEntryHeader)
    requires p.maxFile > 0 && bh.size > 0
    requires BytesAt(p, files, off, SIZE_OF_BLOCK_ENTRY_HEADER) == Some(bh.Marshal())
    ensures CheckPayload(p, files, off, bh).Ok? <==> exists block :: BlockOnDisk(p, files, off, bh, block)
    ensures CheckPayload(p, files, off, bh).Ok? ==>
              BlockOnDisk(p, files, off, bh, CheckPayload(p, files, off, bh).value)
  {
    hide FileOf, LocalOf;
    var r := CheckPayload(p, files, off, bh);
    if r.Ok? {
      assert BlockOnDisk(p, files, off, bh, r.value);
    } else if block :| BlockOnDisk(p, files, off, bh, block) {
      assert false;
    }
  }

  /** Recovery takes the block at an offset, under a header, if and only if the disk holds it there. */
  lemma RecoverIff(p: Params, d: Disk, off: u64, total: u64, bh: BlockEntryHeader)
    requires p.maxFile > 0
    ensures RecoverBlockAt(p, d, off, total).0 == Ok(bh) <==> Acceptable(p, d.files, off, total, bh)
  {
    hide FileOf, LocalOf, ReadBlockHeader, CheckPayload, IndexEntryOffset, BlockOnDisk, BytesAt;
    var at := off as nat + SIZE_OF_BLOCK_ENTRY_HEADER;
    var f1 := Touch(d.files, off, p.maxFile);
    SameOnDisk(p, d.files, off, off, bh);
    HeaderReadIff(p, f1, off, total, bh);
    if ReadBlockHeader(p, f1, off, total) == Ok(bh) {
      SameOnDisk(p, f1, at, off, bh);
      PayloadIff(p, Touch(f1, at, p.maxFile), off, bh);
    } else if Acceptable(p, d.files, off, total, bh) {
      AcceptableHeader(p, f1, off, total, bh);
    }
  }

  lemma AcceptableHeader(p: Params, files: Files, off: nat, total: nat, bh: BlockEntryHeader)
    requires p.maxFile > 0 && Acceptable(p, files, off, total, bh)
    ensures BytesAt(p, files, off, SIZE_OF_BLOCK_ENTRY_HEADER) == Some(bh.Marshal())
  {
  }

  /** Creating a missing file changes nothing that is read. */
  lemma SameOnDisk(p: Params, files: Files, at: nat, off: nat, bh: BlockEntryHeader)
    requires p.maxFile > 0
    ensures var f := Touch(files, at, p.maxFile);
            && BytesAt(p, f, off, SIZE_OF_BLOCK_ENTRY_HEADER) == BytesAt(p, files, off, SIZE_OF_BLOCK_ENTRY_HEADER)
            && (forall block :: BlockOnDisk(p, f, off, bh, block) <==> BlockOnDisk(p, files, off, bh, block))
  {
    TouchReads(p, files, at, off, SIZE_OF_BLOCK_ENTRY_HEADER);
    TouchReads(p, files, at, off + SIZE_OF_BLOCK_ENTRY_HEADER, bh.size as nat);
  }

  /** One iteration of the scan, on files of any contents: where the disk holds a block, it appends exactly the slot
      write of that block and moves behind it. */
  lemma StepIndexes(p: Params, d: Disk, c: Cursor, end: u64, bh: BlockEntryHeader)
    requires p.maxFile > 0 && Acceptable(p, d.files, c.scan, end, bh)
    ensures var (r, d') := ScanStep(p, d, c, end);
            && r == Ok(Advance(c, c.scan as nat + SIZE_OF_BLOCK_ENTRY_HEADER + bh.size as nat, bh.height))
            && d'.index == d.index.Append(SlotWrite(p.minHeight, bh.height, IndexEntry(c.scan, bh.size)))
  {
    hide Acceptable, ReadBlockHeader, CheckPayload;
    assert GoodHeader(p, bh, c.scan, end) && HasSlot(p.minHeight, bh.height) by {
      AcceptableParts(p, d.files, c.scan, end, bh);
    }
    RecoverIff(p, d, c.scan, end, bh);
  }

  lemma AcceptableParts(p: Params, files: Files, off: nat, total: nat, bh: BlockEntryHeader)
    requires p.maxFile > 0 && Acceptable(p, files, off, total, bh)
    ensures GoodHeader(p, bh, off, total) && HasSlot(p.minHeight, bh.height)
  {
  }

  /** Everywhere else it writes nothing. */
  lemma StepWritesNothing(p: Params, d: Disk, c: Cursor, end: u64)
    requires p.maxFile > 0 && forall bh :: !Acceptable(p, d.files, c.scan, end, bh)
    ensures ScanStep(p, d, c, end).1.index == d.index
  {
    hide Acceptable, ReadBlockHeader, CheckPayload;
    var r := RecoverBlockAt(p, d, c.scan, end).0;
    if r.Ok? { RecoverIff(p, d, c.scan, end, r.value); }
  }

  // ----- what the scan writes -----

  /** w is the slot write of a block that the disk holds. */
  ghost predicate Verified(p: Params, files: Files, total: u64, w: Write)
    requires p.maxFile > 0
  {
    exists off: u64, bh: BlockEntryHeader :: VerifiedAt(p, files, total, w, off, bh)
  }

  ghost predicate VerifiedAt(p: Params, files: Files, total: u64, w: Write, off: u64, bh: BlockEntryHeader)
    requires p.maxFile > 0
  {
    Acceptable(p, files, off, total, bh) && w == SlotWrite(p.minHeight, bh.height, IndexEntry(off, bh.size))
  }

  /** The scan leaves what is read from the files as it was. */
  ghost predicate SameReads(p: Params, files: Files, files': Files)
    requires p.maxFile > 0
  {
    forall i: nat :: Contents(files', i) == Contents(files, i)
  }

  lemma VerifiedSame(p: Params, files: Files, files': Files, total: u64, w: Write)
    requires p.maxFile > 0 && SameReads(p, files, files') && Verified(p, files', total, w)
    ensures Verified(p, files, total, w)
  {
    var off: u64, bh :| VerifiedAt(p, files', total, w, off, bh);
    AcceptableSame(p, files, files', off, total, bh);
    assert VerifiedAt(p, files, total, w, off, bh);
  }

  lemma AcceptableSame(p: Params, files: Files, files': Files, off: nat, total: nat, bh: BlockEntryHeader)
    requires p.maxFile > 0 && SameReads(p, files, files') && Acceptable(p, files', off, total, bh)
    ensures Acceptable(p, files, off, total, bh)
  {
    hide FileOf, LocalOf;
    var block :| BlockOnDisk(p, files', off, bh, block);
    assert BlockOnDisk(p, files, off, bh, block);
  }

  /** One iteration appends nothing, or exactly one verified slot write. */
  lemma StepWrites(p: Params, d: Disk, c: Cursor, end: u64)
    requires p.maxFile > 0
    ensures var d' := ScanStep(p, d, c, end).1;
            && SameReads(p, d.files, d'.files)
            && (d'.index == d.index
                || exists w :: d'.index == d.index.Append(w) && Verified(p, d.files, end, w))
  {
    hide Acceptable, FileOf;
    StepReads(p, d, c, end);
    if bh: BlockEntryHeader :| Acceptable(p, d.files, c.scan, end, bh) {
      StepIndexes(p, d, c, end, bh);
      AcceptableParts(p, d.files, c.scan, end, bh);
      var w := SlotWrite(p.minHeight, bh.height, IndexEntry(c.scan, bh.size));
      assert VerifiedAt(p, d.files, end, w, c.scan, bh);
    } else {
      StepWritesNothing(p, d, c, end);
    }
  }

  lemma StepReads(p: Params, d: Disk, c: Cursor, end: u64)
    requires p.maxFile > 0
    ensures SameReads(p, d.files, ScanStep(p, d, c, end).1.files)
  {
    hide FileOf, ReadBlockHeader, CheckPayload;
  }

  /** A scan, successful or not, only appends slot writes of blocks that the disk holds. */
  lemma {:induction false} ScanWritesVerified(p: Params, d: Disk, c: Cursor, end: u64)
    requires p.maxFile > 0
    ensures var d' := Scan(p, d, c, end).1;
            && d'.index.durable == d.index.durable
            && SameReads(p, d.files, d'.files)
            && d.index.pending <= d'.index.pending
            && forall i :: |d.index.pending| <= i < |d'.index.pending| ==>
                 Verified(p, d.files, end, d'.index.pending[i])
    decreases end as int - c.scan as int
  {
    hide ScanStep, Verified;
    if c.scan < end {
      StepWrites(p, d, c, end);
      var (r, d') := ScanStep(p, d, c, end);
      if r.Ok? {
        ScanWritesVerified(p, d', r.value, end);
        var d2 := Scan(p, d', r.value, end).1;
        forall i | |d'.index.pending| <= i < |d2.index.pending| ensures Verified(p, d.files, end, d2.index.pending[i]) {
          VerifiedSame(p, d.files, d'.files, end, d2.index.pending[i]);
        }
      }
    }
  }
}
