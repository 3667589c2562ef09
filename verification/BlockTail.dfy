/** Opening a store whose data files hold a history and, where the next block would go, some bytes that are
    not that block: a part of it, nothing but a fresh file, or a block that recovery refuses. */
module BlockTail {
  import opened Bytes
  import opened BlockFormat
  import opened BlockIndex
  import opened DataFiles
  import opened BlockLog
  import opened Recovery
  import opened BlockStore

  // ----- the files -----

  /** Where a block of total bytes goes after log. */
  ghost function TailOff(p: Params, log: seq<Rec>, total: nat): nat
    requires GoodLog(p, log)
  {
    Place(EndOf(p, log), total, p.maxFile)
  }

  /** The bytes between the end of log and that place: the unused tail of a file, or none. */
  ghost function Gap(p: Params, log: seq<Rec>, total: nat): int
    requires GoodLog(p, log)
  {
    TailOff(p, log, total) - EndOf(p, log)
  }

  /** The files of log, with data written where a block of total bytes would go. */
  ghost predicate Tailed(p: Params, files: Files, log: seq<Rec>, total: nat, data: bytes) {
    && GoodLog(p, log) && 0 < total <= p.maxFile && |data| <= total
    && TailOff(p, log, total) + total <= U64_MAX
    && files == WriteData(FilesOf(p, log), TailOff(p, log, total), data, p.maxFile)
  }

  lemma TailShape(p: Params, files: Files, log: seq<Rec>, total: nat, data: bytes)
    requires Tailed(p, files, log, total, data)
    ensures var off := TailOff(p, log, total);
            var whole, c := FilesOf(p, log), FileOf(off, p.maxFile);
            && LocalOf(off, p.maxFile) == |Contents(whole, c)|
            && (forall j: nat :: j in whole ==> j <= c) && (forall j: nat :: j < c ==> j in whole)
            && files == whole[c := Contents(whole, c) + data]
  {
    hide FileOf, LocalOf, FileStart, Frame;
    var fs := Frames(p, log);
    GoodPrefix(p, log, 0);
    WrittenShape(fs, p.maxFile);
    PlaceIsFileEnd(FilesOf(p, log), EndOf(p, log), total, p.maxFile);
    var c := FileOf(TailOff(p, log, total), p.maxFile);
    var old' := Contents(FilesOf(p, log), c);
    assert BlockIndex.WriteAt(old', |old'|, data) == old' + data;
  }

  /** The on-disk end is the end of the extra bytes, and there is a file even if they are none. */
  lemma TailEnd(p: Params, files: Files, log: seq<Rec>, total: nat, data: bytes)
    requires Tailed(p, files, log, total, data)
    ensures files != map[] && DataEnd(p, files) == Ok(TailOff(p, log, total) + |data|)
    ensures EndOf(p, log) <= TailOff(p, log, total)
  {
    hide WriteData, FilesOf, EndOf;
    TailShape(p, files, log, total, data);
    var off := TailOff(p, log, total);
    PlaceSplit(EndOf(p, log), total, p.maxFile);
    var c := FileOf(off, p.maxFile);
    assert c in files.Keys;
    assert MaxKey(files.Keys) == c;
    if p.maxFile == U64_MAX {
      assert c == 0;
      assert files.Keys == {0};
      assert |files| == |files.Keys| == 1;
    }
  }

  /** Reading the header of the bytes behind the history. */
  lemma TailHead(p: Params, files: Files, log: seq<Rec>, total: nat, data: bytes)
    requires Tailed(p, files, log, total, data) && |data| >= SIZE_OF_BLOCK_ENTRY_HEADER
    ensures var off := TailOff(p, log, total);
            && Touch(files, off, p.maxFile) == files
            && ReadData(files, off, SIZE_OF_BLOCK_ENTRY_HEADER, p.maxFile) == Ok(data[..SIZE_OF_BLOCK_ENTRY_HEADER])
  {
    hide WriteData, FilesOf, EndOf, TailOff;
    TailShape(p, files, log, total, data);
    var off := TailOff(p, log, total);
    var f, l := files[FileOf(off, p.maxFile)], LocalOf(off, p.maxFile);
    assert f[l..] == data;
    assert f[l..l + SIZE_OF_BLOCK_ENTRY_HEADER] == f[l..][..SIZE_OF_BLOCK_ENTRY_HEADER];
  }

  /** The blocks of the history are still there. */
  lemma TailBlockAt(p: Params, files: Files, log: seq<Rec>, total: nat, data: bytes, i: nat)
    requires Tailed(p, files, log, total, data) && i < |log|
    ensures BlockAt(p, files, OffsetOf(p, log, i), log[i])
  {
    hide WriteData, FilesOf, EndOf, OffsetOf;
    BlockAtOf(p, log, i);
    TailShape(p, files, log, total, data);
    BlockAtExtends(p, FilesOf(p, log), files, OffsetOf(p, log, i), log[i]);
  }

  lemma BlockAtExtends(p: Params, files: Files, more: Files, off: nat, r: Rec)
    requires BlockAt(p, files, off, r)
    requires FileOf(off, p.maxFile) in more && files[FileOf(off, p.maxFile)] <= more[FileOf(off, p.maxFile)]
    ensures BlockAt(p, more, off, r)
  {
    var f, g := files[FileOf(off, p.maxFile)], more[FileOf(off, p.maxFile)];
    var l, m := LocalOf(off, p.maxFile), |Frame(p, r)|;
    assert g[l..l + m] == f[l..l + m] by {
      assert forall k :: l <= k < l + m ==> g[k] == f[k];
    }
  }

  /** The unused tails before the blocks of the history are still tails. */
  lemma TailGapAt(p: Params, files: Files, log: seq<Rec>, total: nat, data: bytes, i: nat)
    requires Tailed(p, files, log, total, data) && i < |log|
    requires GoodLog(p, log[..i]) && EndOf(p, log[..i]) != OffsetOf(p, log, i)
    ensures GapAt(p, files, EndOf(p, log[..i]), OffsetOf(p, log, i))
  {
    hide WriteData, FilesOf, EndOf, OffsetOf;
    var e := EndOf(p, log[..i]);
    GapAtOf(p, log, i);
    BlockAtOf(p, log, i);
    JoinSplit(FileOf(e, p.maxFile) + 1, 0, p.maxFile);
    TailShape(p, files, log, total, data);
    GapTransfers(p, FilesOf(p, log), files, e, OffsetOf(p, log, i));
  }

  lemma GapTransfers(p: Params, files: Files, other: Files, off: nat, target: nat)
    requires GapAt(p, files, off, target)
    requires FileOf(off, p.maxFile) in other <==> FileOf(off, p.maxFile) in files
    requires Contents(files, FileOf(off, p.maxFile)) == Contents(other, FileOf(off, p.maxFile))
    ensures GapAt(p, other, off, target)
  {
  }

  /** The tail that the extra bytes skipped is one, too. */
  lemma EndGapAt(p: Params, files: Files, log: seq<Rec>, total: nat, data: bytes)
    requires Tailed(p, files, log, total, data) && Gap(p, log, total) != 0
    ensures GapAt(p, files, EndOf(p, log), TailOff(p, log, total))
  {
    hide Frame, WriteData;
    GoodPrefix(p, log, 0);
    WrittenShape(Frames(p, log), p.maxFile);
    PlaceSplit(EndOf(p, log), total, p.maxFile);
    TailShape(p, files, log, total, data);
    LastFile(EndOf(p, log), p.maxFile);
  }

  // ----- the scan -----

  ghost predicate Counting(log: seq<Rec>, i: nat, c: Cursor, cur: u64)
    requires i <= |log|
  {
    Merge(cur, c) == MaxOf(log[..i]) && c.maxRec != UNSET_HEIGHT && (c.num == 0 ==> c.maxRec == 0)
  }

  /** The scan gets through the history and comes to its end. */
  lemma {:induction false} TailScan(
    p: Params, d: Disk, log: seq<Rec>, total: nat, data: bytes, i: nat, c: Cursor, cur: u64, end: u64)
    returns (c': Cursor, d': Disk)
    requires Tailed(p, d.files, log, total, data) && end == TailOff(p, log, total) + |data|
    requires ScanPos(p, log, i, c.scan) && Counting(log, i, c, cur)
    ensures c'.scan == EndOf(p, log) && Counting(log, |log|, c', cur)
    ensures d'.files == d.files && Scan(p, d, c, end) == Scan(p, d', c', end)
    ensures SlotsSince(p, d.index.Visible(), log, i) ==> SlotsSince(p, d'.index.Visible(), log, |log|)
    decreases |log| - i, EndOf(p, log) as int - c.scan as int
  {
    hide WriteData, EndOf, OffsetOf, FilesOf, ScanStep, SlotsSince;
    if i == |log| {
      assert log[..i] == log;
      return c, d;
    }
    TailStep(p, d, log, total, data, i, c, cur, end);
    var (r, d1) := ScanStep(p, d, c, end);
    if c.scan == OffsetOf(p, log, i) {
      c', d' := TailScan(p, d1, log, total, data, i + 1, r.value, cur, end);
    } else {
      c', d' := TailScan(p, d1, log, total, data, i, r.value, cur, end);
    }
  }

  /** One iteration: over a block, or over the unused tail before it. */
  lemma TailStep(p: Params, d: Disk, log: seq<Rec>, total: nat, data: bytes, i: nat, c: Cursor, cur: u64, end: u64)
    requires Tailed(p, d.files, log, total, data) && end == TailOff(p, log, total) + |data|
    requires i < |log| && ScanPos(p, log, i, c.scan) && Counting(log, i, c, cur)
    ensures c.scan < end && ScanStep(p, d, c, end).0.Ok? && ScanStep(p, d, c, end).1.files == d.files
    ensures SlotsSince(p, d.index.Visible(), log, i) ==>
              SlotsSince(p, ScanStep(p, d, c, end).1.index.Visible(), log,
                         if c.scan == OffsetOf(p, log, i) then i + 1 else i)
    ensures var c' := ScanStep(p, d, c, end).0.value;
            if c.scan == OffsetOf(p, log, i) then ScanPos(p, log, i + 1, c'.scan) && Counting(log, i + 1, c', cur)
            else c'.scan == OffsetOf(p, log, i) && c.scan < c'.scan <= EndOf(p, log) && Counting(log, i, c', cur)
  {
    hide Tailed, FilesOf, ScanStep, BlockAt, GapAt, SlotsSince;
    TailEnd(p, d.files, log, total, data);
    EndsInside(p, log, i);
    EndOfNext(p, log, i);
    if c.scan == OffsetOf(p, log, i) {
      TailBlockAt(p, d.files, log, total, data, i);
      StepOnBlock(p, d, c, end, log[i]);
      if SlotsSince(p, d.index.Visible(), log, i) { SlotWriteAdvances(p, d.index.Visible(), log, i); }
      MergeNext(log, i, cur, c, ScanStep(p, d, c, end).0.value);
    } else {
      TailGapAt(p, d.files, log, total, data, i);
      StepOnGap(p, d, c, end, OffsetOf(p, log, i));
    }
  }

  /** At the end of the history: too little left for a header, a jump to the next file, or nothing to skip. */
  lemma TailJump(p: Params, d: Disk, log: seq<Rec>, total: nat, data: bytes, c: Cursor, end: u64)
    requires Tailed(p, d.files, log, total, data) && end == TailOff(p, log, total) + |data| && c.scan == EndOf(p, log)
    ensures Gap(p, log, total) > 0 && end - c.scan < SIZE_OF_BLOCK_ENTRY_HEADER ==>
              Scan(p, d, c, end).0 == Err(Corrupted)
    ensures Gap(p, log, total) == 0 || end - c.scan >= SIZE_OF_BLOCK_ENTRY_HEADER ==>
              Scan(p, d, c, end) == Scan(p, d, c.(scan := TailOff(p, log, total)), end)
  {
    hide WriteData, FilesOf, EndOf, GapAt, ScanStep;
    TailEnd(p, d.files, log, total, data);
    if Gap(p, log, total) > 0 {
      EndGapAt(p, d.files, log, total, data);
      GapStep(p, d, c, end, TailOff(p, log, total));
    }
  }

  lemma GapStep(p: Params, d: Disk, c: Cursor, end: u64, target: u64)
    requires GapAt(p, d.files, c.scan, target) && target <= end
    ensures ScanStep(p, d, c, end)
         == if end - c.scan < SIZE_OF_BLOCK_ENTRY_HEADER then (Err(Corrupted), d) else (Ok(c.(scan := target)), d)
  {
  }

  /** Whatever the index holds, recovery refuses the block at off. */
  ghost predicate RefusedAt(p: Params, files: Files, off: u64, end: u64)
    requires p.maxFile > 0
  {
    off < end && forall d: Disk :: d.files == files ==> RecoverBlockAt(p, d, off, end).0 == Err(Corrupted)
  }

  lemma RefusedScan(p: Params, d: Disk, c: Cursor, end: u64)
    requires p.maxFile > 0 && RefusedAt(p, d.files, c.scan, end)
    ensures Scan(p, d, c, end).0 == Err(Corrupted)
  {
  }

  // ----- opening -----

  /** The visible header covers the first k blocks. */
  ghost predicate Headed(p: Params, d: Disk, log: seq<Rec>, k: nat) {
    GoodLog(p, log) && k <= |log| && ReadHeader(d.index.Visible()) == Ok(HeaderAt(p, log, k))
  }

  /** From any prefix that the header covers: the scan starts at the end of that prefix, if there is anything
      to scan. */
  lemma TailOpens(p: Params, d: Disk, log: seq<Rec>, k: nat, total: nat, data: bytes, files: Files)
    returns (c: Cursor, d': Disk)
    requires Headed(p, d, log, k) && Tailed(p, files, log, total, data)
    requires k < |log| || TailOff(p, log, total) + |data| > EndOf(p, log)
    ensures c.scan == EndOf(p, log) && d'.files == files && GoodLog(p, log[..k])
    ensures Counting(log, |log|, c, MaxOf(log[..k]))
    ensures SlotsSince(p, d.index.Visible(), log, k) ==> SlotsSince(p, d'.index.Visible(), log, |log|)
    ensures var (r, d2) := Scan(p, d', c, TailOff(p, log, total) + |data|);
            && (r.Err? ==> Open(p, d.(files := files)).0 == Err(r.error))
            && (r.Ok? ==>
                  var max := Merge(MaxOf(log[..k]), r.value);
                  Open(p, d.(files := files))
                  == (Ok(Live(r.value.scan, max)), d2.(index := PersistHeader(p, d2.index, r.value.scan, max))))
  {
    hide Tailed, FilesOf, Scan, Recover, LoadHeader, DataEnd, MaxOf, EndOf, HeaderAt, ReadHeader, PersistHeader,
         SlotsSince;
    HeaderLoads(p, d, log, k, files);
    EndOfStrict(p, log, k);
    TailEnd(p, files, log, total, data);
    if k == |log| { assert log[..k] == log; }
    var d1, live := d.(files := files), Live(EndOf(p, log[..k]), MaxOf(log[..k]));
    var end := TailOff(p, log, total) + |data|;
    RecoverScans(p, d1, live, end);
    c, d' := TailScan(p, d1, log, total, data, k, Cursor(live.next, 0, 0), live.maxHeight, end);
  }

  /** Nothing but the fresh file: opening succeeds exactly when there was no tail to skip or the tail is long
      enough to hold a block header. */
  lemma EmptyTailOpens(p: Params, d: Disk, log: seq<Rec>, k: nat, total: nat, files: Files)
    requires Headed(p, d, log, k) && Tailed(p, files, log, total, [])
    ensures Open(p, d.(files := files)).0
         == if Gap(p, log, total) == 0 || Gap(p, log, total) >= SIZE_OF_BLOCK_ENTRY_HEADER
            then Ok(Live(TailOff(p, log, total), MaxOf(log)))
            else Err(Corrupted)
  {
    hide FilesOf, WriteData, EndOf, Scan, Open, ReadHeader, HeaderAt, DataEnd, MaxOf, Place;
    TailEnd(p, files, log, total, []);
    if k == |log| && Gap(p, log, total) == 0 {
      NothingToScan(p, d, log, total, files);
    } else {
      var c, d' := TailOpens(p, d, log, k, total, [], files);
      assert log[..|log|] == log;
      TailJump(p, d', log, total, [], c, TailOff(p, log, total));
      ScanAtTheEnd(p, d', c.(scan := TailOff(p, log, total)));
    }
  }

  /** And when it does, the reopened store serves the history. */
  lemma EmptyTailServes(p: Params, d: Disk, log: seq<Rec>, k: nat, total: nat, files: Files)
    requires Headed(p, d, log, k) && SlotsSince(p, d.index.Visible(), log, k) && Tailed(p, files, log, total, [])
    requires Gap(p, log, total) == 0 || Gap(p, log, total) >= SIZE_OF_BLOCK_ENTRY_HEADER
    ensures var (r, d') := Open(p, d.(files := files));
            r.Ok? && d'.files == files && Serves(p, Store(d', r.value), log)
  {
    hide FilesOf, WriteData, EndOf, TailOff, Open, ReadHeader, HeaderAt, MaxOf, SlotsSince, PersistHeader, Serves;
    var off: u64 := TailOff(p, log, total);
    if k == |log| && Gap(p, log, total) == 0 {
      NothingToScan(p, d, log, total, files);
      TailServes(p, d.(files := files), log, total, off);
    } else {
      var d' := EmptyTailScans(p, d, log, k, total, files);
      PersistKeepsSlots(p, d'.index, log, off, MaxOf(log));
      TailServes(p, d'.(index := PersistHeader(p, d'.index, off, MaxOf(log))), log, total, off);
    }
  }

  lemma EmptyTailScans(p: Params, d: Disk, log: seq<Rec>, k: nat, total: nat, files: Files) returns (d': Disk)
    requires Headed(p, d, log, k) && SlotsSince(p, d.index.Visible(), log, k) && Tailed(p, files, log, total, [])
    requires Gap(p, log, total) == 0 || Gap(p, log, total) >= SIZE_OF_BLOCK_ENTRY_HEADER
    requires k < |log| || Gap(p, log, total) != 0
    ensures d'.files == files && SlotsSince(p, d'.index.Visible(), log, |log|)
    ensures var off: u64 := TailOff(p, log, total);
            Open(p, d.(files := files))
            == (Ok(Live(off, MaxOf(log))), d'.(index := PersistHeader(p, d'.index, off, MaxOf(log))))
  {
    hide FilesOf, WriteData, EndOf, Scan, Open, ReadHeader, HeaderAt, DataEnd, MaxOf, Place, SlotsSince, PersistHeader;
    TailEnd(p, files, log, total, []);
    var c, d1 := TailOpens(p, d, log, k, total, [], files);
    assert log[..|log|] == log;
    TailJump(p, d1, log, total, [], c, TailOff(p, log, total));
    ScanAtTheEnd(p, d1, c.(scan := TailOff(p, log, total)));
    d' := d1;
  }

  lemma PersistKeepsSlots(p: Params, index: IndexFile, log: seq<Rec>, next: u64, max: u64)
    requires GoodLog(p, log) && SlotsSince(p, index.Visible(), log, |log|)
    ensures SlotsSince(p, PersistHeader(p, index, next, max).Visible(), log, |log|)
  {
    hide SlotsSince;
    HeaderWriteKeeps(p, index.Visible(), log, |log|,
                     IndexFileHeader(INDEX_FILE_VERSION, p.maxFile, p.minHeight, max, next));
  }

  lemma TailServes(p: Params, d: Disk, log: seq<Rec>, total: nat, next: u64)
    requires Tailed(p, d.files, log, total, []) && SlotsSince(p, d.index.Visible(), log, |log|)
    ensures Serves(p, Store(d, Live(next, MaxOf(log))), log)
  {
    hide SlotsSince, BlockAt, FilesOf, EndOf, OffsetOf, WriteData;
    forall i | 0 <= i < |log| ensures BlockAt(p, d.files, OffsetOf(p, log, i), log[i]) {
      TailBlockAt(p, d.files, log, total, [], i);
    }
  }

  lemma ScanAtTheEnd(p: Params, d: Disk, c: Cursor)
    requires p.maxFile > 0
    ensures Scan(p, d, c, c.scan) == (Ok(c), d)
  {
  }

  lemma NothingToScan(p: Params, d: Disk, log: seq<Rec>, total: nat, files: Files)
    requires Headed(p, d, log, |log|) && Tailed(p, files, log, total, []) && Gap(p, log, total) == 0
    ensures Open(p, d.(files := files)) == (Ok(Live(TailOff(p, log, total), MaxOf(log))), d.(files := files))
  {
    hide FilesOf, WriteData, EndOf, DataEnd, Open, LoadHeader, Headed, MaxOf, Place;
    TailEnd(p, files, log, total, []);
    HeaderLoads(p, d, log, |log|, files);
    assert log[..|log|] == log;
    OpenSettled(p, d.(files := files), Live(EndOf(p, log), MaxOf(log)));
  }

  lemma HeaderLoads(p: Params, d: Disk, log: seq<Rec>, k: nat, files: Files)
    requires Headed(p, d, log, k)
    ensures GoodLog(p, log[..k])
    ensures LoadHeader(p, d.(files := files)) == (Ok(Live(EndOf(p, log[..k]), MaxOf(log[..k]))), d.(files := files))
  {
    hide SlotsSince, FilesOf;
    GoodPrefix(p, log, k);
  }

  lemma OpenSettled(p: Params, d: Disk, live: Live)
    requires p.maxFile > 0 && LoadHeader(p, d) == (Ok(live), d)
    requires d.files != map[] && DataEnd(p, d.files) == Ok(live.next)
    ensures Open(p, d) == (Ok(live), d)
  {
    hide LoadHeader, DataEnd, Recover;
    NothingToRecover(p, d, live);
  }

  /** A block that recovery refuses makes opening fail. */
  lemma RefusedTailFails(p: Params, d: Disk, log: seq<Rec>, k: nat, total: nat, data: bytes, files: Files)
    requires Headed(p, d, log, k) && Tailed(p, files, log, total, data) && data != []
    requires RefusedAt(p, files, TailOff(p, log, total), TailOff(p, log, total) + |data|)
    ensures Open(p, d.(files := files)).0 == Err(Corrupted)
  {
    hide FilesOf, WriteData, EndOf, RefusedAt, Scan, Open, Headed, DataEnd, MaxOf, Place, SlotsSince, PersistHeader,
         Merge;
    var off := TailOff(p, log, total);
    TailEnd(p, files, log, total, data);
    var c, d' := TailOpens(p, d, log, k, total, data, files);
    TailJump(p, d', log, total, data, c, off + |data|);
    RefusedScan(p, d', c.(scan := off), off + |data|);
  }
}
