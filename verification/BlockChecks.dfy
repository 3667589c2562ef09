/** The checks of the store, each said of the bytes on the disk: what opening makes of a header and of a block
    that somebody else framed, what a read makes of a stored block, and why a put is refused. */
module BlockChecks {
  import opened Bytes
  import opened BlockFormat
  import opened BlockIndex
  import opened DataFiles
  import opened BlockLog
  import opened Recovery
  import opened RecoveryScan
  import opened BlockStore
  import opened BlockTail

  // ----- the index header -----

  /** An index file opens if and only if it is empty or starts with a whole header of version 1; the write offset
      and the maximum are its last two fields. */
  lemma HeaderOpensIff(p: Params, d: Disk)
    ensures var b := d.index.Visible();
            var r := LoadHeader(p, d).0;
            && (b == [] ==> r == Ok(Live(0, U64_MAX)))
            && (0 < |b| < 64 ==> r == Err(UnexpectedEof))
            && (|b| >= 64 ==>
                  && (r.Ok? <==> FromLE(b[0..8]) == 1)
                  && (r.Ok? ==> r.value.next == FromLE(b[32..40]) && r.value.maxHeight == FromLE(b[24..32]))
                  && (r.Err? ==> r == Err(Corrupted)))
  {
    var b := d.index.Visible();
    if |b| >= 64 {
      var h := b[..64];
      assert h[0..8] == b[0..8] && h[24..32] == b[24..32] && h[32..40] == b[32..40];
    }
  }

  /** What opening refuses before it scans anything: a missing data file, a second file where one holds everything,
      an end past u64, and less data than the header has accounted for. */
  lemma FilesRefusedIff(p: Params, d: Disk, live: Live, last: nat)
    requires p.maxFile > 0 && last in d.files && forall j :: j in d.files ==> j <= last
    ensures var r := Recover(p, d, live).0;
            var end := last * p.maxFile + |d.files[last]|;
            && ((exists j: nat :: j < last && j !in d.files) ==> r == Err(Corrupted))
            && (p.maxFile == U64_MAX && last > 0 ==> r == Err(Corrupted))
            && ((forall j: nat :: j < last ==> j in d.files) && (p.maxFile == U64_MAX ==> last == 0) ==>
                  && (end > U64_MAX ==> r == Err(Overflow))
                  && (end < live.next ==> r == Err(Corrupted))
                  && (end == live.next ==> r == Ok(live)))
  {
    hide Scan, FileStart;
    FileStartIsProduct(last, p.maxFile);
    assert last in d.files.Keys;
    assert MaxKey(d.files.Keys) == last;
    if p.maxFile == U64_MAX && last > 0 && forall j: nat :: j < last ==> j in d.files {
      assert {0, last} <= d.files.Keys;
      TwoKeys(d.files, 0, last);
    }
    if p.maxFile == U64_MAX && last == 0 {
      assert d.files.Keys == {0};
      assert |d.files| == |d.files.Keys| == 1;
    }
  }

  lemma TwoKeys(files: Files, a: nat, b: nat)
    requires a in files && b in files && a != b
    ensures |files| > 1
  {
    assert b in files.Keys - {a};
    assert |files.Keys| == |files.Keys - {a}| + 1;
  }

  // ----- a block anywhere in the data -----

  /** What recovery makes of the header bytes of a block, on files of any contents. */
  lemma HeaderOutcome(p: Params, files: Files, off: u64, total: u64)
    requires p.maxFile > 0
    ensures var r := ReadBlockHeader(p, files, off, total);
            match BytesAt(p, files, off, 22)
            case None => r == Err(UnexpectedEof)
            case Some(s) =>
              var height, size, version := FromLE(s[0..8]), FromLE(s[8..12]), FromLE(s[20..22]);
              if size == 0 || version > 1 || height < p.minHeight || height == U64_MAX then r == Err(Corrupted)
              else if off as nat + 22 + size > U64_MAX then r == Err(Overflow)
              else if off as nat + 22 + size > total then r == Err(Corrupted)
              else r.Ok? && r.value.height == height && r.value.size == size && r.value.checksum == FromLE(s[12..20])
  {
    hide FileOf, LocalOf;
  }

  /** What it makes of the payload bytes. */
  lemma PayloadOutcome(p: Params, files: Files, off: u64, bh: BlockEntryHeader)
    requires p.maxFile > 0 && bh.size > 0
    ensures var r := CheckPayload(p, files, off, bh);
            match BytesAt(p, files, off as nat + 22, bh.size as nat)
            case None => r == Err(UnexpectedEof)
            case Some(data) =>
              match p.decompress(data)
              case None => r == Err(Compression)
              case Some(block) => r == if p.checksum(block) == bh.checksum then Ok(block) else Err(Corrupted)
  {
    hide FileOf, LocalOf;
  }

  /** What it makes of the block: of too little data, of the header, of the payload, and of a height without a slot, in
      this order. */
  lemma BlockOutcome(p: Params, d: Disk, off: u64, total: u64)
    requires p.maxFile > 0
    ensures var r := RecoverBlockAt(p, d, off, total).0;
            var head := ReadBlockHeader(p, d.files, off, total);
            if total < off || total - off < 22 then r == Err(Corrupted)
            else if head.Err? then r == Err(head.error)
            else
              var payload := CheckPayload(p, d.files, off, head.value);
              if payload.Err? then r == Err(payload.error)
              else if 64 + 16 * (head.value.height - p.minHeight) > U64_MAX then r == Err(InvalidBlockHeight)
              else r == Ok(head.value)
  {
    if total >= off && total - off >= 22 {
      hide FileOf, LocalOf, UnmarshalBlockEntryHeader, Touch, BytesAt;
      var f1 := Touch(d.files, off, p.maxFile);
      TouchReads(p, d.files, off, off, 22);
      var head := ReadBlockHeader(p, d.files, off, total);
      assert ReadBlockHeader(p, f1, off, total) == head;
      if head.Ok? {
        var at, n := off as nat + 22, head.value.size as nat;
        TouchReads(p, d.files, off, at, n);
        TouchReads(p, f1, at, at, n);
        HeaderInRange(p, d.files, off, total);
      }
    }
  }

  lemma HeaderInRange(p: Params, files: Files, off: u64, total: u64)
    requires p.maxFile > 0 && ReadBlockHeader(p, files, off, total).Ok?
    ensures ReadBlockHeader(p, files, off, total).value.height >= p.minHeight
  {
  }

  /** One turn of the scan: behind a block that was taken, at the next file where the bytes end, which must be within
      u64, or with the block's error. */
  lemma StepOutcome(p: Params, d: Disk, c: Cursor, end: u64, next: nat)
    requires p.maxFile > 0 && next == (c.scan / p.maxFile + 1) * p.maxFile
    ensures var r := ScanStep(p, d, c, end).0;
            match RecoverBlockAt(p, d, c.scan, end).0
            case Ok(bh) =>
              && r.Ok? && r.value.scan == c.scan as nat + 22 + bh.size as nat
              && r.value.maxRec == if bh.height > c.maxRec then bh.height else c.maxRec
            case Err(UnexpectedEof) => r == if next > U64_MAX then Err(Overflow) else Ok(c.(scan := next))
            case Err(e) => r == Err(e)
  {
    hide RecoverBlockAt, FileOf, FileStart;
    DivModLaws(c.scan, p.maxFile);
    StepBy(p, d, c, end, next);
  }

  lemma StepBy(p: Params, d: Disk, c: Cursor, end: u64, next: nat)
    requires p.maxFile > 0 && next == FileStart(FileOf(c.scan, p.maxFile) + 1, p.maxFile)
    ensures var r := ScanStep(p, d, c, end).0;
            match RecoverBlockAt(p, d, c.scan, end).0
            case Ok(bh) =>
              && r.Ok? && r.value.scan == c.scan as nat + 22 + bh.size as nat
              && r.value.maxRec == if bh.height > c.maxRec then bh.height else c.maxRec
            case Err(UnexpectedEof) => r == if next > U64_MAX then Err(Overflow) else Ok(c.(scan := next))
            case Err(e) => r == Err(e)
  {
    hide RecoverBlockAt, FileOf, FileStart;
    BlockInRange(p, d, c.scan, end);
  }

  lemma BlockInRange(p: Params, d: Disk, off: u64, total: u64)
    requires p.maxFile > 0
    ensures var r := RecoverBlockAt(p, d, off, total).0;
            r.Ok? ==> off as nat + 22 + r.value.size as nat <= total
  {
    hide ReadBlockHeader, CheckPayload, IndexEntryOffset, Touch;
  }

  // ----- a block behind a history -----

  lemma TailPayload(p: Params, files: Files, log: seq<Rec>, bh: BlockEntryHeader, payload: bytes)
    requires payload != [] && Tailed(p, files, log, 22 + |payload|, bh.Marshal() + payload)
    ensures var at := TailOff(p, log, 22 + |payload|) + 22;
            && Touch(files, at, p.maxFile) == files
            && ReadData(files, at, |payload|, p.maxFile) == Ok(payload)
  {
    hide WriteData, FilesOf, EndOf, FileOf, LocalOf, FileStart;
    var total, data := 22 + |payload|, bh.Marshal() + payload;
    TailShape(p, files, log, total, data);
    PlaceSplit(EndOf(p, log), total, p.maxFile);
    var off := TailOff(p, log, total);
    JoinSplit(FileOf(off, p.maxFile), LocalOf(off, p.maxFile) + 22, p.maxFile);
    var f, l := files[FileOf(off, p.maxFile)], LocalOf(off, p.maxFile);
    assert f[l + 22..l + 22 + |payload|] == payload;
  }

  /** What recovery says of a block by its header and payload. */
  function Verdict(p: Params, bh: BlockEntryHeader, payload: bytes): Option<Error> {
    if bh.version > 1 || bh.height < p.minHeight || bh.height == U64_MAX then Some(Corrupted)
    else
      match p.decompress(payload)
      case None => Some(Compression)
      case Some(block) =>
        if p.checksum(block) != bh.checksum then Some(Corrupted)
        else if 64 + 16 * (bh.height - p.minHeight) > U64_MAX then Some(InvalidBlockHeight)
        else None
  }

  lemma FramedStep(p: Params, d: Disk, log: seq<Rec>, bh: BlockEntryHeader, payload: bytes, c: Cursor)
    requires bh.size > 0 && |payload| == bh.size as nat
    requires Tailed(p, d.files, log, 22 + |payload|, bh.Marshal() + payload)
    requires c.scan == TailOff(p, log, 22 + |payload|)
    ensures var end: u64 := c.scan as nat + 22 + |payload|;
            var (r, d') := ScanStep(p, d, c, end);
            match Verdict(p, bh, payload)
            case Some(e) => r == Err(e)
            case None => r == Ok(Advance(c, end, bh.height)) && d'.files == d.files
  {
    hide WriteData, FilesOf, EndOf, TailOff, FileOf, LocalOf, Touch, ReadData;
    var total, data := 22 + |payload|, bh.Marshal() + payload;
    TailHead(p, d.files, log, total, data);
    assert data[..22] == bh.Marshal();
    TailPayload(p, d.files, log, bh, payload);
    BlockEntryHeaderRoundTrip(bh);
  }

  lemma MergeAdvance(cur: u64, c: Cursor, scan: u64, height: u64)
    requires c.maxRec != UNSET_HEIGHT && (c.num == 0 ==> c.maxRec == 0) && height != UNSET_HEIGHT
    ensures Merge(cur, Advance(c, scan, height)) == Raised(Merge(cur, c), height)
  {
  }

  /** The larger of a maximum that may be unset and a height. */
  function Raised(max: u64, height: u64): u64 {
    if max == U64_MAX || height > max then height else max
  }

  /** A framed block behind any history, whoever framed it: opening accepts it if and only if its version and height
      are in range, its payload decompresses, and the checksum of what that yields is the one in the header. */
  lemma FramedTailOutcome(
    p: Params, d: Disk, log: seq<Rec>, k: nat, bh: BlockEntryHeader, payload: bytes, files: Files)
    requires Headed(p, d, log, k) && bh.size > 0 && |payload| == bh.size as nat
    requires Tailed(p, files, log, 22 + |payload|, bh.Marshal() + payload)
    ensures var end: u64 := TailOff(p, log, 22 + |payload|) + 22 + |payload|;
            Open(p, d.(files := files)).0
            == match Verdict(p, bh, payload)
               case Some(e) => Err(e)
               case None => Ok(Live(end, Raised(MaxOf(log), bh.height)))
  {
    hide WriteData, FilesOf, EndOf, TailOff, Scan, ScanStep, Open, ReadHeader, HeaderAt, SlotsSince,
         PersistHeader, MaxOf, Merge;
    var total, data := 22 + |payload|, bh.Marshal() + payload;
    var off: u64, end: u64 := TailOff(p, log, total), TailOff(p, log, total) + total;
    TailEnd(p, files, log, total, data);
    var c, d' := TailOpens(p, d, log, k, total, data, files);
    TailJump(p, d', log, total, data, c, end);
    var c1 := c.(scan := off);
    FramedStep(p, d', log, bh, payload, c1);
    OneStepScan(p, d', c1, end);
    if Verdict(p, bh, payload).None? {
      assert log[..|log|] == log;
      MergeAdvance(MaxOf(log[..k]), c1, end, bh.height);
      CountingMoves(log, c, off, MaxOf(log[..k]));
    }
  }

  /** A block that is in range and decompresses, under the checksum of some other block, makes opening report
      corruption, whatever history it stands behind. */
  lemma WrongChecksumFails(
    p: Params, d: Disk, log: seq<Rec>, k: nat, bh: BlockEntryHeader, payload: bytes, files: Files, block: bytes)
    requires Headed(p, d, log, k) && bh.size > 0 && |payload| == bh.size as nat
    requires Tailed(p, files, log, 22 + |payload|, bh.Marshal() + payload)
    requires bh.version <= 1 && p.minHeight <= bh.height < U64_MAX
    requires p.decompress(payload) == Some(block) && p.checksum(block) != bh.checksum
    ensures Open(p, d.(files := files)).0 == Err(Corrupted)
  {
    hide Open, Headed, Tailed;
    FramedTailOutcome(p, d, log, k, bh, payload, files);
  }

  lemma CountingMoves(log: seq<Rec>, c: Cursor, off: u64, cur: u64)
    requires Counting(log, |log|, c, cur)
    ensures Counting(log, |log|, c.(scan := off), cur)
  {
  }

  /** A scan whose next step fails or reaches the end. */
  lemma OneStepScan(p: Params, d: Disk, c: Cursor, end: u64)
    requires p.maxFile > 0 && c.scan < end
    ensures var (r, d') := ScanStep(p, d, c, end);
            && (r.Err? ==> Scan(p, d, c, end) == (Err(r.error), d'))
            && (r.Ok? && r.value.scan == end ==> Scan(p, d, c, end) == (Ok(r.value), d'))
  {
    hide ScanStep;
  }

  // ----- reads -----

  /** A read that misses the cache, by the bytes at the slot's offset: the block, if they decompress and the checksum
      in bytes 12 to 19 is that of what they yield. */
  lemma ReadOutcome(p: Params, s: Store, h: u64, entry: IndexEntry)
    requires p.maxFile > 0 && ReadBlockIndex(p, s, h) == Ok(entry)
    ensures GetUncached(p, s, h)
         == match BytesAt(p, s.disk.files, entry.offset, 22 + entry.size as nat)
            case None => Err(UnexpectedEof)
            case Some(stored) =>
              match p.decompress(stored[22..])
              case None => Err(Compression)
              case Some(block) =>
                if FromLE(stored[12..20]) == p.checksum(block) then Ok(block) else Err(ChecksumMismatch)
  {
    hide FileOf, LocalOf, ReadBlockIndex;
    var stored := BytesAt(p, s.disk.files, entry.offset, 22 + entry.size as nat);
    if stored.Some? { assert stored.value[..22][12..20] == stored.value[12..20]; }
  }

  /** A read returns a block only if the stored checksum is that block's. */
  lemma ReadIsChecked(p: Params, s: Store, h: u64, block: bytes)
    requires p.maxFile > 0
    ensures GetUncached(p, s, h) == Ok(block)
       <==> && ReadBlockIndex(p, s, h).Ok?
            && var entry := ReadBlockIndex(p, s, h).value;
               var stored := BytesAt(p, s.disk.files, entry.offset, 22 + entry.size as nat);
               && stored.Some? && p.decompress(stored.value[22..]) == Some(block)
               && FromLE(stored.value[12..20]) == p.checksum(block)
  {
    hide BytesAt, ReadBlockIndex;
    if ReadBlockIndex(p, s, h).Ok? {
      ReadOutcome(p, s, h, ReadBlockIndex(p, s, h).value);
    } else {
      NothingIndexed(p, s, h);
    }
  }

  /** A read that misses the cache and finds a slot opens the data file of its offset: the file is there afterwards,
      empty if it was missing, and nothing else changes. */
  lemma ReadOpensFile(p: Params, s: Store, h: u64, entry: IndexEntry)
    requires p.maxFile > 0 && ReadBlockIndex(p, s, h) == Ok(entry)
    ensures var s' := AfterRead(p, s, h);
            var n := entry.offset / p.maxFile;
            && s'.live == s.live && s'.disk.index == s.disk.index
            && n >= 0 && s'.disk.files.Keys == s.disk.files.Keys + {n}
            && (forall j :: j in s'.disk.files ==>
                  s'.disk.files[j] == if j in s.disk.files then s.disk.files[j] else [])
  {
    DivModLaws(entry.offset, p.maxFile);
  }

  // ----- refused puts -----

  /** Why a put is refused, in the order in which it is checked. */
  lemma PutRefusal(p: Params, s: Store, r: Rec)
    requires p.maxFile > 0 && p.checkpoint > 0
    ensures var n := 22 + |p.compress(r.block)|;
            DoPut(p, s, r).0
            == if |r.block| > U32_MAX then Err(BlockTooLarge)
               else if r.height < p.minHeight || 64 + 16 * (r.height - p.minHeight) > U64_MAX then
                 Err(InvalidBlockHeight)
               else if |p.compress(r.block)| > U32_MAX then Err(BlockTooLarge)
               else if n > U32_MAX then Err(Overflow)
               else if n > p.maxFile then Err(BlockTooLarge)
               else if Place(s.live.next, n, p.maxFile) + n > U64_MAX then Err(Overflow)
               else Ok(())
  {
    hide AllocateBlockSpace, Place, DoHeader, DoSync, DoRaise, DoSlot, DoData;
    if CheckPut(p, r).Ok? { AllocateIsLeastFit(s.live.next, CheckPut(p, r).value, p.maxFile); }
  }
}
