/** Opening the store: loading the index header and the torn-write recovery scan. */
module Recovery {
  import opened Bytes
  import opened BlockFormat
  import opened BlockIndex
  import opened DataFiles
  import opened BlockLog

  datatype Disk = Disk(index: IndexFile, files: Files)

  // ----- one block -----

  /** Validates and indexes the block at off. */
  function RecoverBlockAt(p: Params, d: Disk, off: u64, total: u64): (Result<BlockEntryHeader>, Disk)
    requires p.maxFile > 0
  {
    if total < off || total - off < SIZE_OF_BLOCK_ENTRY_HEADER then (Err(Corrupted), d)
    else
      var d1 := d.(files := Touch(d.files, off, p.maxFile));
      var bh := ReadBlockHeader(p, d1.files, off, total);
      if bh.Err? then (Err(bh.error), d1)
      else
        var d2 := d1.(files := Touch(d1.files, off as nat + SIZE_OF_BLOCK_ENTRY_HEADER, p.maxFile));
        var checked := CheckPayload(p, d2.files, off, bh.value);
        if checked.Err? then (Err(checked.error), d2)
        else
          match IndexEntryOffset(p.minHeight, bh.value.height)
          case Err(e) => (Err(e), d2)
          case Ok(slot) =>
            (Ok(bh.value), d2.(index := d2.index.Append(Write(slot, IndexEntry(off, bh.value.size).Marshal()))))
  }

  /** The header checks made before the payload is read. */
  function ReadBlockHeader(p: Params, files: Files, off: u64, total: u64): (r: Result<BlockEntryHeader>)
    requires p.maxFile > 0
    ensures r.Ok? ==> off + SIZE_OF_BLOCK_ENTRY_HEADER as nat + r.value.size as nat <= total && r.value.size > 0
  {
    match ReadData(files, off, SIZE_OF_BLOCK_ENTRY_HEADER, p.maxFile)
    case Err(e) => Err(e)
    case Ok(raw) =>
      match UnmarshalBlockEntryHeader(raw)
      case Err(e) => Err(e)
      case Ok(bh) =>
        if bh.size == 0 then Err(Corrupted)
        else if bh.version > BLOCK_ENTRY_VERSION then Err(Corrupted)
        else if bh.height < p.minHeight || bh.height == UNSET_HEIGHT then Err(Corrupted)
        else if off as nat + SIZE_OF_BLOCK_ENTRY_HEADER + bh.size as nat > U64_MAX then Err(Overflow)
        else if off as nat + SIZE_OF_BLOCK_ENTRY_HEADER + bh.size as nat > total then Err(Corrupted)
        else Ok(bh)
  }

  /** Reads and decompresses the payload and compares its checksum. */
  function CheckPayload(p: Params, files: Files, off: u64, bh: BlockEntryHeader): Result<bytes>
    requires p.maxFile > 0
  {
    match ReadData(files, off as nat + SIZE_OF_BLOCK_ENTRY_HEADER, bh.size, p.maxFile)
    case Err(e) => Err(e)
    case Ok(data) =>
      match p.decompress(data)
      case None => Err(Compression)
      case Some(block) => if p.checksum(block) != bh.checksum then Err(Corrupted) else Ok(block)
  }

  // ----- the scan -----

  datatype Cursor = Cursor(scan: u64, num: u64, maxRec: u64)

  /** The cursor after indexing a block at height. */
  function Advance(c: Cursor, scan: u64, height: u64): Cursor {
    Cursor(scan, if c.num == U64_MAX then c.num else c.num + 1, if height > c.maxRec then height else c.maxRec)
  }

  /** One iteration of the scan loop. */
  function ScanStep(p: Params, d: Disk, c: Cursor, end: u64): (r: (Result<Cursor>, Disk))
    requires p.maxFile > 0
    ensures r.0.Ok? ==> r.0.value.scan > c.scan
  {
    var (bh, d') := RecoverBlockAt(p, d, c.scan, end);
    match bh
    case Ok(h) =>
      var scan: nat := c.scan as nat + SIZE_OF_BLOCK_ENTRY_HEADER + h.size as nat;
      if scan > U64_MAX then (Err(Overflow), d')
      else (Ok(Advance(c, scan, h.height)), d')
    case Err(UnexpectedEof) =>
      SplitJoin(c.scan, p.maxFile);
      var next := FileStart(FileOf(c.scan, p.maxFile) + 1, p.maxFile);
      if next > U64_MAX then (Err(Overflow), d') else (Ok(c.(scan := next)), d')
    case Err(e) => (Err(e), d')
  }

  function Scan(p: Params, d: Disk, c: Cursor, end: u64): (Result<Cursor>, Disk)
    requires p.maxFile > 0
    decreases end as int - c.scan as int
  {
    if c.scan >= end then (Ok(c), d)
    else
      var (r, d') := ScanStep(p, d, c, end);
      match r
      case Err(e) => (Err(e), d')
      case Ok(c') => Scan(p, d', c', end)
  }

  // ----- the whole of recovery -----

  ghost function MaxKey(s: set<nat>): (m: nat)
    requires s != {}
    ensures m in s && forall i :: i in s ==> i <= m
  {
    var x :| x in s;
    if s == {x} then x
    else
      assert s == {x} + (s - {x});
      var m := MaxKey(s - {x});
      assert forall i :: i in s ==> i == x || i in s - {x};
      if m > x then m else x
  }

  /** The on-disk end of the data: all files before the last count as full. */
  ghost function DataEnd(p: Params, files: Files): Result<u64>
    requires files != map[]
  {
    var last := MaxKey(files.Keys);
    if p.maxFile == U64_MAX && |files| > 1 then Err(Corrupted)
    else if exists i: nat :: i <= last && i !in files then Err(Corrupted)
    else if FileStart(last, p.maxFile) + |files[last]| > U64_MAX then Err(Overflow)
    else Ok(FileStart(last, p.maxFile) + |files[last]|)
  }

  /** The recovered maximum height: the scan only raises what the header says. */
  function Merge(cur: u64, c: Cursor): u64 {
    if c.num > 0 && (cur == UNSET_HEIGHT || c.maxRec > cur) then c.maxRec else cur
  }

  function PersistHeader(p: Params, idx: IndexFile, next: u64, maxHeight: u64): IndexFile {
    (if p.sync then idx.Sync() else idx)
    .Append(HeaderWrite(IndexFileHeader(INDEX_FILE_VERSION, p.maxFile, p.minHeight, maxHeight, next)))
  }

  datatype Live = Live(next: u64, maxHeight: u64)

  ghost function Recover(p: Params, d: Disk, live: Live): (Result<Live>, Disk)
    requires p.maxFile > 0
  {
    if d.files == map[] then (Ok(live), d)
    else
      match DataEnd(p, d.files)
      case Err(e) => (Err(e), d)
      case Ok(end) =>
        if end == live.next then (Ok(live), d)
        else if end < live.next then (Err(Corrupted), d)
        else
          var (r, d') := Scan(p, d, Cursor(live.next, 0, 0), end);
          match r
          case Err(e) => (Err(e), d')
          case Ok(c) =>
            var max := Merge(live.maxHeight, c);
            (Ok(Live(c.scan, max)), d'.(index := PersistHeader(p, d'.index, c.scan, max)))
  }

  /** The header of an empty index file is initialised; otherwise it must parse with version 1. */
  function LoadHeader(p: Params, d: Disk): (Result<Live>, Disk) {
    var b := d.index.Visible();
    if b == [] then
      var h := IndexFileHeader(INDEX_FILE_VERSION, p.maxFile, p.minHeight, UNSET_HEIGHT, 0);
      (Ok(Live(0, UNSET_HEIGHT)), d.(index := d.index.Append(HeaderWrite(h))))
    else
      match ReadHeader(b)
      case Err(e) => (Err(e), d)
      case Ok(h) =>
        if h.version != INDEX_FILE_VERSION then (Err(Corrupted), d) else (Ok(Live(h.nextWriteOffset, h.maxHeight)), d)
  }

  /** The settings in effect: a header that is there decides on the file size and the minimum height. */
  function Configured(p: Params, d: Disk): Params {
    var b := d.index.Visible();
    if b != [] && ReadHeader(b).Ok? then
      p.(maxFile := ReadHeader(b).value.maxDataFileSize, minHeight := ReadHeader(b).value.minHeight)
    else p
  }

  ghost function Open(p: Params, d: Disk): (Result<Live>, Disk)
    requires p.maxFile > 0
  {
    var (r, d') := LoadHeader(p, d);
    match r
    case Err(e) => (Err(e), d')
    case Ok(live) => Recover(p, d', live)
  }

  // ----- the scan on the files of a history -----

  /** The cursor is between block i - 1 and block i: right behind the one or right at the other. */
  ghost predicate ScanPos(p: Params, log: seq<Rec>, i: nat, scan: u64)
    requires GoodLog(p, log)
  {
    && i <= |log|
    && GoodLog(p, log[..i])
    && (scan == EndOf(p, log[..i]) || (i < |log| && scan == OffsetOf(p, log, i)))
  }

  lemma EndOfNext(p: Params, log: seq<Rec>, i: nat)
    requires GoodLog(p, log) && i < |log|
    ensures GoodLog(p, log[..i]) && GoodLog(p, log[..i + 1])
    ensures EndOf(p, log[..i + 1]) == OffsetOf(p, log, i) + |Frame(p, log[i])|
    ensures EndOf(p, log[..i]) <= OffsetOf(p, log, i)
  {
    GoodPrefix(p, log, i);
    GoodPrefix(p, log, i + 1);
    var fs := Frames(p, log);
    assert fs[..i + 1][..i] == fs[..i];
  }

  lemma HeaderFromFrame(p: Params, files: Files, off: u64, total: u64, r: Rec)
    requires Lawful(p) && GoodRec(p, r) && off as nat + |Frame(p, r)| <= total
    requires ReadData(files, off, 22, p.maxFile) == Ok(HeaderOf(p, r).Marshal())
    ensures ReadBlockHeader(p, files, off, total) == Ok(HeaderOf(p, r))
  {
    BlockEntryHeaderRoundTrip(HeaderOf(p, r));
  }

  lemma PayloadFromFrame(p: Params, files: Files, off: u64, r: Rec)
    requires Lawful(p) && GoodRec(p, r)
    requires ReadData(files, off as nat + 22, |p.compress(r.block)|, p.maxFile) == Ok(p.compress(r.block))
    ensures CheckPayload(p, files, off, HeaderOf(p, r)) == Ok(r.block)
  {
  }

  /** The files hold the framed block r at off, within one file. */
  ghost predicate BlockAt(p: Params, files: Files, off: nat, r: Rec) {
    && Lawful(p) && GoodRec(p, r)
    && FileOf(off, p.maxFile) in files
    && Fits(off, |Frame(p, r)|, p.maxFile)
    && var f, l := files[FileOf(off, p.maxFile)], LocalOf(off, p.maxFile);
    && l + |Frame(p, r)| <= |f|
    && f[l..l + |Frame(p, r)|] == Frame(p, r)
  }

  lemma BlockAtOf(p: Params, log: seq<Rec>, i: nat)
    requires GoodLog(p, log) && i < |log|
    ensures BlockAt(p, FilesOf(p, log), OffsetOf(p, log, i), log[i])
  {
    GoodPrefix(p, log, i);
    ReadBack(Frames(p, log), i, p.maxFile);
  }

  /** Reading n bytes of the block, from bytes into it. */
  lemma ReadsPart(p: Params, files: Files, off: nat, r: Rec, from: nat, n: nat)
    requires BlockAt(p, files, off, r) && n > 0 && from + n <= |Frame(p, r)|
    ensures Touch(files, off + from, p.maxFile) == files
    ensures ReadData(files, off + from, n, p.maxFile) == Ok(Frame(p, r)[from..from + n])
  {
    SplitJoin(off, p.maxFile);
    JoinSplit(FileOf(off, p.maxFile), LocalOf(off, p.maxFile) + from, p.maxFile);
    var f, l := files[FileOf(off, p.maxFile)], LocalOf(off, p.maxFile);
    SubSlice(f, l, |Frame(p, r)|, from, n);
  }

  lemma FrameParts(p: Params, r: Rec)
    requires |p.compress(r.block)| <= U32_MAX
    ensures Frame(p, r)[0..22] == HeaderOf(p, r).Marshal()
    ensures Frame(p, r)[22..22 + |p.compress(r.block)|] == p.compress(r.block)
    ensures Frame(p, r)[0..|Frame(p, r)|] == Frame(p, r)
  {
  }

  /** What the reads of a stored block return: its header, its payload, all of it. */
  lemma ReadsBlock(p: Params, files: Files, off: nat, r: Rec)
    requires BlockAt(p, files, off, r)
    ensures Touch(files, off, p.maxFile) == files && Touch(files, off + 22, p.maxFile) == files
    ensures ReadData(files, off, 22, p.maxFile) == Ok(HeaderOf(p, r).Marshal())
    ensures ReadData(files, off + 22, |p.compress(r.block)|, p.maxFile) == Ok(p.compress(r.block))
    ensures ReadData(files, off, |Frame(p, r)|, p.maxFile) == Ok(Frame(p, r))
  {
    FrameParts(p, r);
    assert off + 0 == off;
    ReadsPart(p, files, off, r, 0, 22);
    ReadsPart(p, files, off, r, 22, |p.compress(r.block)|);
    ReadsPart(p, files, off, r, 0, |Frame(p, r)|);
  }

  lemma EndsInside(p: Params, log: seq<Rec>, i: nat)
    requires GoodLog(p, log) && i < |log|
    ensures OffsetOf(p, log, i) as nat + |Frame(p, log[i])| <= EndOf(p, log)
  {
    GoodPrefix(p, log, i);
  }

  lemma RecoverStored(p: Params, d: Disk, off: u64, total: u64, r: Rec)
    requires BlockAt(p, d.files, off, r) && off as nat + |Frame(p, r)| <= total
    ensures RecoverBlockAt(p, d, off, total)
         == (Ok(HeaderOf(p, r)),
             d.(index := d.index.Append(SlotWrite(p.minHeight, r.height, IndexEntry(off, |p.compress(r.block)|)))))
  {
    ReadsBlock(p, d.files, off, r);
    HeaderFromFrame(p, d.files, off, total, r);
    PayloadFromFrame(p, d.files, off, r);
  }

  /** The file of off ends there, and the next file starts at target. */
  predicate GapAt(p: Params, files: Files, off: nat, target: nat) {
    && p.maxFile > 0 && off < target
    && FileStart(FileOf(off, p.maxFile) + 1, p.maxFile) == target
    && Touch(files, off, p.maxFile) == files
    && ReadData(files, off, SIZE_OF_BLOCK_ENTRY_HEADER, p.maxFile) == Err(UnexpectedEof)
  }

  lemma GapAtOf(p: Params, log: seq<Rec>, i: nat)
    requires GoodLog(p, log) && i < |log|
    requires GoodLog(p, log[..i]) && EndOf(p, log[..i]) != OffsetOf(p, log, i)
    ensures GapAt(p, FilesOf(p, log), EndOf(p, log[..i]), OffsetOf(p, log, i))
  {
    GoodPrefix(p, log, i);
    GapIsEof(Frames(p, log), i, 22, p.maxFile);
  }

  lemma StepOnBlock(p: Params, d: Disk, c: Cursor, end: u64, r: Rec)
    requires BlockAt(p, d.files, c.scan, r) && c.scan as nat + |Frame(p, r)| <= end
    ensures ScanStep(p, d, c, end)
         == (Ok(Advance(c, c.scan as nat + |Frame(p, r)|, r.height)),
             d.(index := d.index.Append(SlotWrite(p.minHeight, r.height, IndexEntry(c.scan, |p.compress(r.block)|)))))
  {
    hide RecoverBlockAt, Frame, BlockAt;
    RecoverStored(p, d, c.scan, end, r);
  }

  /** One loop iteration at block i indexes it, with exactly its slot write, and moves behind it. */
  lemma ScanStepAtBlock(p: Params, d: Disk, log: seq<Rec>, i: nat, c: Cursor)
    requires GoodLog(p, log) && i < |log| && d.files == FilesOf(p, log)
    requires c.scan == OffsetOf(p, log, i)
    ensures c.scan < EndOf(p, log) && GoodLog(p, log[..i + 1])
    ensures ScanStep(p, d, c, EndOf(p, log))
         == (Ok(Advance(c, EndOf(p, log[..i + 1]), log[i].height)),
             d.(index := d.index.Append(SlotWriteOf(p, log, i))))
  {
    hide ScanStep, FilesOf, BlockAt, EndOf, OffsetOf, Frame, Advance;
    EndOfNext(p, log, i);
    EndsInside(p, log, i);
    assert c.scan as nat + |Frame(p, log[i])| == EndOf(p, log[..i + 1]);
    BlockAtOf(p, log, i);
    StepOnBlock(p, d, c, EndOf(p, log), log[i]);
  }

  lemma StepOnGap(p: Params, d: Disk, c: Cursor, end: u64, target: u64)
    requires GapAt(p, d.files, c.scan, target) && target as nat + SIZE_OF_BLOCK_ENTRY_HEADER <= end
    ensures ScanStep(p, d, c, end) == (Ok(c.(scan := target)), d)
  {
  }

  /** One loop iteration in the unused tail of a file skips to block i and changes nothing. */
  lemma ScanStepAtGap(p: Params, d: Disk, log: seq<Rec>, i: nat, c: Cursor)
    requires GoodLog(p, log) && i < |log| && d.files == FilesOf(p, log)
    requires ScanPos(p, log, i, c.scan) && c.scan != OffsetOf(p, log, i)
    ensures c.scan < OffsetOf(p, log, i) < EndOf(p, log)
    ensures ScanStep(p, d, c, EndOf(p, log)) == (Ok(c.(scan := OffsetOf(p, log, i))), d)
  {
    GapAtOf(p, log, i);
    EndsInside(p, log, i);
    StepOnGap(p, d, c, EndOf(p, log), OffsetOf(p, log, i));
  }

  /** Indexing one more block keeps the merged maximum right. */
  lemma MergeNext(log: seq<Rec>, i: nat, cur: u64, c: Cursor, c': Cursor)
    requires i < |log| && log[i].height != UNSET_HEIGHT && c.maxRec != UNSET_HEIGHT
    requires c.num == 0 ==> c.maxRec == 0
    requires Merge(cur, c) == MaxOf(log[..i])
    requires c'.num > 0 && c'.maxRec == if log[i].height > c.maxRec then log[i].height else c.maxRec
    ensures Merge(cur, c') == MaxOf(log[..i + 1]) && c'.maxRec != UNSET_HEIGHT
  {
    var next := log[..i + 1];
    assert next[|next| - 1] == log[i] && next[..|next| - 1] == log[..i];
  }

  /** The scan over the files of a history indexes all of it and ends at its end. */
  lemma {:induction false} ScanGood(p: Params, d: Disk, log: seq<Rec>, i: nat, c: Cursor, cur: u64)
    requires GoodLog(p, log) && d.files == FilesOf(p, log)
    requires ScanPos(p, log, i, c.scan)
    requires SlotsSince(p, d.index.Visible(), log, i)
    requires Merge(cur, c) == MaxOf(log[..i]) && c.maxRec != UNSET_HEIGHT && (c.num == 0 ==> c.maxRec == 0)
    ensures var (r, d') := Scan(p, d, c, EndOf(p, log));
            && r.Ok? && r.value.scan == EndOf(p, log)
            && Merge(cur, r.value) == MaxOf(log)
            && d'.files == d.files
            && SlotsSince(p, d'.index.Visible(), log, |log|)
            && ReadHeader(d'.index.Visible()) == ReadHeader(d.index.Visible())
    decreases EndOf(p, log) as int - c.scan as int
  {
    if i == |log| {
      assert log[..i] == log;
    } else {
      if c.scan == OffsetOf(p, log, i) {
        ScanStepAtBlock(p, d, log, i, c);
        var c' := Advance(c, EndOf(p, log[..i + 1]), log[i].height);
        var d' := d.(index := d.index.Append(SlotWriteOf(p, log, i)));
        SlotWriteKeeps(p, d.index.Visible(), log, i, i);
        SlotWriteAdvances(p, d.index.Visible(), log, i);
        MergeNext(log, i, cur, c, c');
        ScanGood(p, d', log, i + 1, c', cur);
      } else {
        ScanStepAtGap(p, d, log, i, c);
        ScanGood(p, d, log, i, c.(scan := OffsetOf(p, log, i)), cur);
      }
    }
  }

  // ----- recovery of a history -----

  /** The disk holds the blocks of log, its visible header covers the first k of them, and those are
      indexed. */
  ghost predicate Recoverable(p: Params, d: Disk, log: seq<Rec>, k: nat) {
    && GoodLog(p, log) && k <= |log|
    && d.files == FilesOf(p, log)
    && ReadHeader(d.index.Visible()) == Ok(HeaderAt(p, log, k))
    && SlotsSince(p, d.index.Visible(), log, k)
  }

  lemma DataEndGood(p: Params, log: seq<Rec>)
    requires GoodLog(p, log) && log != []
    ensures FilesOf(p, log) != map[]
    ensures DataEnd(p, FilesOf(p, log)) == Ok(EndOf(p, log))
  {
    hide Written, End, FileStart, LocalOf, Frame;
    var fs := Frames(p, log);
    var files := Written(fs, p.maxFile);
    GoodPrefix(p, log, 0);
    WrittenShape(fs, p.maxFile);
    var end := End(fs, p.maxFile);
    var last := FileOf(end - 1, p.maxFile);
    assert last in files;
    assert MaxKey(files.Keys) == last;
    if p.maxFile == U64_MAX {
      assert last == 0;
      assert files.Keys == {0};
      assert |files| == |files.Keys| == 1;
    }
  }

  lemma EndOfStrict(p: Params, log: seq<Rec>, k: nat)
    requires GoodLog(p, log) && k <= |log|
    ensures GoodLog(p, log[..k])
    ensures EndOf(p, log[..k]) <= EndOf(p, log)
    ensures EndOf(p, log[..k]) == EndOf(p, log) ==> k == |log|
  {
    GoodPrefix(p, log, k);
  }

  /** Persisting the header of a fully indexed history makes it cover that history. */
  lemma PersistGood(p: Params, d: Disk, log: seq<Rec>)
    requires GoodLog(p, log) && d.files == FilesOf(p, log)
    requires SlotsSince(p, d.index.Visible(), log, |log|)
    ensures Recoverable(p, d.(index := PersistHeader(p, d.index, EndOf(p, log), MaxOf(log))), log, |log|)
  {
    assert log[..|log|] == log;
    HeaderWriteKeeps(p, d.index.Visible(), log, |log|, HeaderAt(p, log, |log|));
  }

  lemma RecoverTail(p: Params, d: Disk, log: seq<Rec>, k: nat)
    requires Recoverable(p, d, log, k) && k < |log|
    ensures GoodLog(p, log[..k])
    ensures var (r, d') := Scan(p, d, Cursor(EndOf(p, log[..k]), 0, 0), EndOf(p, log));
            && r.Ok? && r.value.scan == EndOf(p, log)
            && Merge(MaxOf(log[..k]), r.value) == MaxOf(log)
            && Recoverable(p, d'.(index := PersistHeader(p, d'.index, EndOf(p, log), MaxOf(log))), log, |log|)
  {
    EndOfStrict(p, log, k);
    var c := Cursor(EndOf(p, log[..k]), 0, 0);
    ScanGood(p, d, log, k, c, MaxOf(log[..k]));
    PersistGood(p, Scan(p, d, c, EndOf(p, log)).1, log);
  }

  lemma RecoverScans(p: Params, d: Disk, live: Live, end: u64)
    requires p.maxFile > 0 && d.files != map[] && DataEnd(p, d.files) == Ok(end) && live.next < end
    ensures var (r, d') := Scan(p, d, Cursor(live.next, 0, 0), end);
            && (r.Err? ==> Recover(p, d, live) == (Err(r.error), d'))
            && (r.Ok? ==>
                  var max := Merge(live.maxHeight, r.value);
                  Recover(p, d, live)
                  == (Ok(Live(r.value.scan, max)), d'.(index := PersistHeader(p, d'.index, r.value.scan, max))))
  {
    hide Scan, DataEnd, PersistHeader;
  }

  lemma NothingToRecover(p: Params, d: Disk, live: Live)
    requires p.maxFile > 0 && (d.files != map[] ==> DataEnd(p, d.files) == Ok(live.next))
    ensures Recover(p, d, live) == (Ok(live), d)
  {
    hide DataEnd;
  }

  lemma NoFiles(p: Params)
    requires GoodLog(p, [])
    ensures FilesOf(p, []) == map[]
  {
  }

  /** Recovery restores the whole history: every block indexed, the offset and the maximum exact. */
  lemma RecoverGood(p: Params, d: Disk, log: seq<Rec>, k: nat)
    requires Recoverable(p, d, log, k)
    ensures GoodLog(p, log[..k])
    ensures var (r, d') := Recover(p, d, Live(EndOf(p, log[..k]), MaxOf(log[..k])));
            && r == Ok(Live(EndOf(p, log), MaxOf(log)))
            && Recoverable(p, d', log, |log|)
  {
    hide Recover, Scan, SlotsSince, FilesOf, DataEnd, EndOf, MaxOf, PersistHeader;
    EndOfStrict(p, log, k);
    if k < |log| {
      DataEndGood(p, log);
      RecoverTail(p, d, log, k);
      RecoverScans(p, d, Live(EndOf(p, log[..k]), MaxOf(log[..k])), EndOf(p, log));
    } else {
      assert log[..k] == log;
      if log == [] { NoFiles(p); } else { DataEndGood(p, log); }
      NothingToRecover(p, d, Live(EndOf(p, log), MaxOf(log)));
    }
  }

  lemma OpenGood(p: Params, d: Disk, log: seq<Rec>, k: nat)
    requires Recoverable(p, d, log, k)
    ensures var (r, d') := Open(p, d);
            && r == Ok(Live(EndOf(p, log), MaxOf(log)))
            && Recoverable(p, d', log, |log|)
  {
    RecoverGood(p, d, log, k);
  }

  /** An empty index file is rebuilt from the data files alone. */
  lemma OpenFresh(p: Params, d: Disk, log: seq<Rec>)
    requires GoodLog(p, log) && d.files == FilesOf(p, log)
    requires d.index.Visible() == []
    ensures var (r, d') := Open(p, d);
            && r == Ok(Live(EndOf(p, log), MaxOf(log)))
            && Recoverable(p, d', log, |log|)
  {
    GoodPrefix(p, log, 0);
    FreshIndex(p, log);
    var d1 := LoadHeader(p, d).1;
    assert log[..0] == [];
    assert Recoverable(p, d1, log, 0);
    RecoverGood(p, d1, log, 0);
  }
}
