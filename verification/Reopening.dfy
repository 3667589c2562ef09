/** Opening a store twice, on files and an index of any contents: exactly when the second open finds nothing to do. */
module Reopening {
  import opened Bytes
  import opened BlockFormat
  import opened BlockIndex
  import opened DataFiles
  import opened BlockLog
  import opened Recovery
  import opened RecoveryScan

  // ----- what the scan does to the data files -----

  /** Nothing but empty files that start before end have been added. */
  predicate Grown(p: Params, files: Files, files': Files, end: nat) {
    && (forall j :: j in files ==> j in files' && files'[j] == files[j])
    && (forall j :: j in files' && j !in files ==> files'[j] == [] && FileStart(j, p.maxFile) < end)
  }

  lemma TouchGrows(p: Params, files: Files, off: nat, end: nat)
    requires p.maxFile > 0 && off < end
    ensures Grown(p, files, Touch(files, off, p.maxFile), end) && FileOf(off, p.maxFile) in Touch(files, off, p.maxFile)
  {
    SplitJoin(off, p.maxFile);
  }

  lemma GrownTwice(p: Params, a: Files, b: Files, c: Files, end: nat)
    requires Grown(p, a, b, end) && Grown(p, b, c, end)
    ensures Grown(p, a, c, end)
  {
    hide FileStart;
  }

  lemma RecoverGrows(p: Params, d: Disk, off: u64, end: u64)
    requires p.maxFile > 0 && off < end
    ensures Grown(p, d.files, RecoverBlockAt(p, d, off, end).1.files, end)
    ensures end - off >= SIZE_OF_BLOCK_ENTRY_HEADER ==> FileOf(off, p.maxFile) in RecoverBlockAt(p, d, off, end).1.files
  {
    hide FileOf, FileStart, CheckPayload, Touch, IndexEntryOffset;
    TouchGrows(p, d.files, off, end);
    var f1 := Touch(d.files, off, p.maxFile);
    var bh := ReadBlockHeader(p, f1, off, end);
    if bh.Ok? {
      var f2 := Touch(f1, off as nat + SIZE_OF_BLOCK_ENTRY_HEADER, p.maxFile);
      TouchGrows(p, f1, off as nat + SIZE_OF_BLOCK_ENTRY_HEADER, end);
      GrownTwice(p, d.files, f1, f2, end);
    }
  }

  lemma StepGrows(p: Params, d: Disk, c: Cursor, end: u64)
    requires p.maxFile > 0 && c.scan < end
    ensures Grown(p, d.files, ScanStep(p, d, c, end).1.files, end)
    ensures ScanStep(p, d, c, end).0.Ok? ==> FileOf(c.scan, p.maxFile) in ScanStep(p, d, c, end).1.files
  {
    hide FileOf, FileStart, Grown, ReadBlockHeader, CheckPayload, Touch, IndexEntryOffset;
    RecoverGrows(p, d, c.scan, end);
  }

  lemma {:induction false} ScanGrows(p: Params, d: Disk, c: Cursor, end: u64)
    requires p.maxFile > 0
    ensures Grown(p, d.files, Scan(p, d, c, end).1.files, end)
    decreases end as int - c.scan as int
  {
    hide ScanStep, FileStart;
    if c.scan < end {
      StepGrows(p, d, c, end);
      var (r, d') := ScanStep(p, d, c, end);
      if r.Ok? {
        ScanGrows(p, d', r.value, end);
        GrownTwice(p, d.files, d'.files, Scan(p, d, c, end).1.files, end);
      }
    }
  }

  // ----- a jump past the end -----

  lemma StepPast(p: Params, d: Disk, c: Cursor, end: u64, last: nat)
    requires EndsAt(p, d.files, end, last) && c.scan < end
    requires ScanStep(p, d, c, end).0.Ok? && ScanStep(p, d, c, end).0.value.scan > end
    ensures FileOf(c.scan, p.maxFile) > last
  {
    hide FileOf, LocalOf, FileStart, CheckPayload, EndsAt;
    FileOfMonotone(c.scan, end, p.maxFile);
    if FileOf(c.scan, p.maxFile) < FileOf(end, p.maxFile) {
      JumpStaysBefore(p, c.scan, end);
    } else if FileOf(end, p.maxFile) == last {
      RecoverInLast(p, d, c.scan, end, last);
    } else {
      EndFile(p, d.files, end, last, c.scan);
      PastLast(p, d.files, end, last);
    }
  }

  /** A scan that ends past the end has created a file behind the last. */
  lemma {:induction false} ScanPast(p: Params, d: Disk, c: Cursor, end: u64, last: nat)
    requires EndsAt(p, d.files, end, last) && c.scan <= end
    requires Scan(p, d, c, end).0.Ok? && Scan(p, d, c, end).0.value.scan != end
    ensures exists j :: j > last && j in Scan(p, d, c, end).1.files
    decreases end as int - c.scan as int
  {
    hide ScanStep, FileOf, FileStart;
    StepGrows(p, d, c, end);
    var (r, d') := ScanStep(p, d, c, end);
    if r.value.scan > end {
      StepPast(p, d, c, end, last);
    } else {
      StepKeepsEnd(p, d, c, end, last);
      ScanPast(p, d', r.value, end, last);
    }
  }

  lemma StepKeepsEnd(p: Params, d: Disk, c: Cursor, end: u64, last: nat)
    requires EndsAt(p, d.files, end, last)
    ensures EndsAt(p, ScanStep(p, d, c, end).1.files, end, last)
  {
    hide EndsAt, RecoverBlockAt, FileStart, FileOf;
    RecoverKeepsEnd(p, d, c.scan, end, last);
  }

  // ----- the on-disk end -----

  lemma DataEndIs(p: Params, files: Files, end: u64)
    requires p.maxFile > 0 && files != map[] && DataEnd(p, files) == Ok(end)
    ensures EndsAt(p, files, end, MaxKey(files.Keys)) && forall j: nat :: j in files <==> j <= MaxKey(files.Keys)
  {
  }

  /** Empty files added before the end take the on-disk end back. */
  lemma GrownEnd(p: Params, files: Files, files': Files, end: u64)
    requires p.maxFile > 0 && files != map[] && DataEnd(p, files) == Ok(end) && Grown(p, files, files', end)
    ensures files' != map[]
    ensures files' != files ==> DataEnd(p, files').Ok? ==> DataEnd(p, files').value < end
  {
    hide FileStart;
    DataEndIs(p, files, end);
    var last := MaxKey(files.Keys);
    assert last in files';
    if files' != files {
      assert exists j :: j in files' && j !in files;
      var j :| j in files' && j !in files;
      assert j in files'.Keys && j > last;
      assert MaxKey(files'.Keys) !in files;
    }
  }

  /** A last file of at most the maximum size keeps the scan from adding any. */
  lemma GrownNothing(p: Params, files: Files, files': Files, end: u64)
    requires p.maxFile > 0 && files != map[] && DataEnd(p, files) == Ok(end) && Grown(p, files, files', end)
    requires |files[MaxKey(files.Keys)]| <= p.maxFile
    ensures files' == files
  {
    DataEndIs(p, files, end);
    var last := MaxKey(files.Keys);
    forall j | j in files' ensures j in files {
      if j > last { FileStartMonotone(last + 1, j, p.maxFile); }
    }
  }

  // ----- the second open -----

  /** What an open has loaded, the next one loads again. */
  lemma LoadsAgain(p: Params, d: Disk)
    requires LoadHeader(p, d).0.Ok?
    ensures LoadHeader(p, LoadHeader(p, d).1) == LoadHeader(p, d) && LoadHeader(p, d).1.files == d.files
  {
    hide WriteAt, UnmarshalIndexFileHeader, ApplyWrites;
    HeaderReads([], IndexFileHeader(INDEX_FILE_VERSION, p.maxFile, p.minHeight, UNSET_HEIGHT, 0));
  }

  lemma LoadsPersisted(p: Params, d: Disk, next: u64, max: u64)
    ensures var d' := d.(index := PersistHeader(p, d.index, next, max));
            LoadHeader(p, d') == (Ok(Live(next, max)), d')
  {
    hide WriteAt, UnmarshalIndexFileHeader, ApplyWrites;
    var h := IndexFileHeader(INDEX_FILE_VERSION, p.maxFile, p.minHeight, max, next);
    HeaderReads((if p.sync then d.index.Sync() else d.index).Visible(), h);
  }

  /** What a successful open went through after loading the header: nothing, or a scan to the end it found. */
  lemma OpenCases(p: Params, d: Disk) returns (live: Live, d1: Disk, end: u64, c: Cursor, d2: Disk)
    requires p.maxFile > 0 && Open(p, d).0.Ok?
    ensures LoadHeader(p, d) == (Ok(live), d1) && Open(p, d) == Recover(p, d1, live)
    ensures if d1.files == map[] || DataEnd(p, d1.files) == Ok(live.next) then Open(p, d) == (Ok(live), d1)
            else && DataEnd(p, d1.files) == Ok(end) && live.next < end
                 && Scan(p, d1, Cursor(live.next, 0, 0), end) == (Ok(c), d2)
                 && var max := Merge(live.maxHeight, c);
                    Open(p, d) == (Ok(Live(c.scan, max)), d2.(index := PersistHeader(p, d2.index, c.scan, max)))
  {
    hide LoadHeader, DataEnd, Scan, PersistHeader;
    var load := LoadHeader(p, d);
    live, d1 := load.0.value, load.1;
    end, c, d2 := 0, Cursor(0, 0, 0), d1;
    if d1.files != map[] && DataEnd(p, d1.files) != Ok(live.next) {
      end := DataEnd(p, d1.files).value;
      var scan := Scan(p, d1, Cursor(live.next, 0, 0), end);
      c, d2 := scan.0.value, scan.1;
    }
  }

  lemma ScannedAgain(p: Params, d1: Disk, live: Live, end: u64, c: Cursor, d2: Disk, max: u64)
    requires p.maxFile > 0 && d1.files != map[] && DataEnd(p, d1.files) == Ok(end) && live.next < end
    requires Scan(p, d1, Cursor(live.next, 0, 0), end) == (Ok(c), d2)
    ensures var d3 := d2.(index := PersistHeader(p, d2.index, c.scan, max));
            Open(p, d3) == (Ok(Live(c.scan, max)), d3) <==> d3.files == d1.files
  {
    hide LoadHeader, DataEnd, Scan, PersistHeader, Grown, EndsAt;
    var d3 := d2.(index := PersistHeader(p, d2.index, c.scan, max));
    LoadsPersisted(p, d2, c.scan, max);
    ScanGrows(p, d1, Cursor(live.next, 0, 0), end);
    GrownEnd(p, d1.files, d3.files, end);
    ScanReaches(p, d1, Cursor(live.next, 0, 0), end);
    DataEndIs(p, d1.files, end);
    if d3.files == d1.files {
      if c.scan != end { ScanPast(p, d1, Cursor(live.next, 0, 0), end, MaxKey(d1.files.Keys)); }
      NothingToRecover(p, d3, Live(c.scan, max));
    }
  }

  lemma {:induction false} ScanReaches(p: Params, d: Disk, c: Cursor, end: u64)
    requires p.maxFile > 0
    ensures Scan(p, d, c, end).0.Ok? ==> Scan(p, d, c, end).0.value.scan >= end
    decreases end as int - c.scan as int
  {
    hide ScanStep;
    if c.scan < end {
      var (r, d') := ScanStep(p, d, c, end);
      if r.Ok? { ScanReaches(p, d', r.value, end); }
    }
  }

  /** For every disk that opens: a second open returns the same and writes nothing, if and only if the first one
      created no data file. */
  lemma SecondOpenIff(p: Params, d: Disk)
    requires p.maxFile > 0 && Open(p, d).0.Ok?
    ensures Open(p, Open(p, d).1) == Open(p, d) <==> Open(p, d).1.files == d.files
  {
    hide LoadHeader, DataEnd, Scan, PersistHeader, Merge;
    var live, d1, end, c, d2 := OpenCases(p, d);
    LoadsAgain(p, d);
    if d1.files != map[] && DataEnd(p, d1.files) != Ok(live.next) {
      ScannedAgain(p, d1, live, end, c, d2, Merge(live.maxHeight, c));
    }
  }

  /** The last data file, if there is one, is no longer than the maximum file size. */
  ghost predicate LastFits(p: Params, files: Files) {
    files != map[] ==> |files[MaxKey(files.Keys)]| <= p.maxFile
  }

  /** That is so whenever the last file is no longer than a file may be. */
  lemma SecondOpenChangesNothing(p: Params, d: Disk)
    requires p.maxFile > 0 && Open(p, d).0.Ok? && LastFits(p, d.files)
    ensures Open(p, Open(p, d).1) == Open(p, d) && Open(p, d).1.files == d.files
  {
    hide LoadHeader, DataEnd, Scan, PersistHeader, Merge, Open;
    var live, d1, end, c, d2 := OpenCases(p, d);
    LoadsAgain(p, d);
    if d1.files != map[] && DataEnd(p, d1.files) != Ok(live.next) {
      ScanGrows(p, d1, Cursor(live.next, 0, 0), end);
      GrownNothing(p, d1.files, d2.files, end);
    }
    SecondOpenIff(p, d);
  }

  /** Otherwise it may not be: files whose last one is not contained open under some header, and then open
      differently. */
  lemma SecondOpenDiffers(p: Params, files: Files, end: u64) returns (d: Disk)
    requires p.maxFile > 0 && files != map[] && DataEnd(p, files) == Ok(end)
    requires !Contained(p, |files[MaxKey(files.Keys)]|, end)
    ensures d.files == files && Open(p, d).0.Ok? && Open(p, Open(p, d).1) != Open(p, d)
  {
    hide DataEnd, Scan, PersistHeader, Merge, Contained, LoadHeader, EndsAt;
    var last := MaxKey(files.Keys);
    DataEndIs(p, files, end);
    var c := ScanJumpsPast(p, Disk(IndexFile([], []), files), end, last);
    d := Disk(PersistHeader(p, IndexFile([], []), c.scan, 0), files);
    var c' := ScanJumpsPast(p, d, end, last);
    LoadsPersisted(p, Disk(IndexFile([], []), files), c.scan, 0);
    RecoverScans(p, d, Live(c.scan, 0), end);
    ScanPast(p, d, c, end, last);
    SecondOpenIff(p, d);
  }
}
