/** The block database class: files updated in place, counters, and an LRU cache in front of reads.
    Every method is specified by the value-level operation it carries out. */
module BlockDb {
  import opened Bytes
  import opened BlockFormat
  import opened BlockIndex
  import opened DataFiles
  import opened BlockLog
  import opened Recovery
  import opened BlockStore

  // ----- operators the scan computes with -----

  lemma MulGrows(n: nat, max: nat)
    requires max > 0
    ensures n * max >= n
  {
  }

  lemma NextFileOperators(scan: u64, max: u64)
    requires max > 0
    ensures (scan / max + 1) * max == FileStart(FileOf(scan, max) + 1, max)
    ensures scan / max + 1 > U64_MAX ==> FileStart(FileOf(scan, max) + 1, max) > U64_MAX
  {
    DivModLaws(scan, max);
    MulGrows(scan / max + 1, max);
  }

  /** Where the scan continues after an end of file. */
  method NextFileStart(scan: u64, max: u64) returns (r: Result<u64>)
    requires max > 0
    ensures var next := FileStart(FileOf(scan, max) + 1, max);
            r == if next > U64_MAX then Err(Overflow) else Ok(next)
  {
    NextFileOperators(scan, max);
    var nextFile: nat := scan / max + 1;
    if nextFile > U64_MAX { return Err(Overflow); }
    r := CheckedMul(nextFile, max);
  }

  /** The largest data file index, if there is any data file. */
  method ListDataFiles(files: Files) returns (last: Option<nat>)
    ensures files == map[] ==> last == None
    ensures files != map[] ==> last == Some(MaxKey(files.Keys))
  {
    last := None;
    var rest := files.Keys;
    while rest != {}
      invariant rest <= files.Keys
      invariant last.None? ==> rest == files.Keys
      invariant last.Some? ==> last.value in files && forall i: nat :: i in files && i !in rest ==> i <= last.value
      decreases rest
    {
      var i :| i in rest;
      rest := rest - {i};
      if last.None? || i > last.value { last := Some(i); }
    }
    assert files != map[] ==> files.Keys != {};
  }

  method NoGaps(files: Files, last: nat) returns (ok: bool)
    ensures ok <==> forall i: nat :: i <= last ==> i in files
  {
    var i := 0;
    while i <= last
      invariant i <= last + 1
      invariant forall j: nat :: j < i ==> j in files
    {
      if i !in files { return false; }
      i := i + 1;
    }
    ok := true;
  }

  /** The end of the data found on disk, or why the files cannot be used. */
  method OnDiskEnd(p: Params, files: Files, last: nat) returns (r: Result<u64>)
    requires files != map[] && last == MaxKey(files.Keys)
    ensures r == DataEnd(p, files)
  {
    if p.maxFile == U64_MAX && |files| > 1 { return Err(Corrupted); }
    var complete := NoGaps(files, last);
    if !complete { return Err(Corrupted); }
    FileStartIsProduct(last, p.maxFile);
    var full: nat := last * p.maxFile;
    if full > U64_MAX { return Err(Overflow); }
    if full + |files[last]| > U64_MAX { return Err(Overflow); }
    r := Ok(full + |files[last]|);
  }

  class BlockDb {
    const p: Params
    const cacheCap: nat
    var index: IndexFile
    var files: Files
    var next: u64
    var maxHeight: u64
    var cache: Cache
    var closed: bool

    function State(): Store
      reads this
    {
      Store(Disk(index, files), Live(next, maxHeight))
    }

    constructor Load(p: Params, cacheCap: nat, d: Disk, live: Live)
      ensures this.p == p && this.cacheCap == cacheCap && State() == Store(d, live)
      ensures cache == [] && !closed
    {
      this.p, this.cacheCap := p, cacheCap;
      index, files, next, maxHeight := d.index, d.files, live.next, live.maxHeight;
      cache, closed := [], false;
    }

    // ----- open and recovery -----

    method RecoverBlockAtOffset(offset: u64, total: u64) returns (r: Result<BlockEntryHeader>)
      requires p.maxFile > 0
      modifies this`files, this`index
      ensures (r, Disk(index, files)) == RecoverBlockAt(p, Disk(old(index), old(files)), offset, total)
    {
      if total < offset || total - offset < SIZE_OF_BLOCK_ENTRY_HEADER { return Err(Corrupted); }
      files := Touch(files, offset, p.maxFile);
      var bh := ReadBlockHeader(p, files, offset, total);
      if bh.Err? { return Err(bh.error); }
      files := Touch(files, offset as nat + SIZE_OF_BLOCK_ENTRY_HEADER, p.maxFile);
      var block := CheckPayload(p, files, offset, bh.value);
      if block.Err? { return Err(block.error); }
      var slot := IndexEntryOffset(p.minHeight, bh.value.height);
      if slot.Err? { return Err(slot.error); }
      index := index.Append(Write(slot.value, IndexEntry(offset, bh.value.size).Marshal()));
      r := Ok(bh.value);
    }

    /** One iteration of the scan. */
    method ScanOnce(c: Cursor, end: u64) returns (r: Result<Cursor>)
      requires p.maxFile > 0
      modifies this`files, this`index
      ensures (r, Disk(index, files)) == ScanStep(p, Disk(old(index), old(files)), c, end)
    {
      hide RecoverBlockAt, FileOf, FileStart;
      var bh := RecoverBlockAtOffset(c.scan, end);
      if bh.Ok? {
        var scan: nat := c.scan as nat + SIZE_OF_BLOCK_ENTRY_HEADER + bh.value.size as nat;
        if scan > U64_MAX { return Err(Overflow); }
        r := Ok(Advance(c, scan, bh.value.height));
      } else if bh.error == UnexpectedEof {
        var nextScan := NextFileStart(c.scan, p.maxFile);
        r := if nextScan.Err? then Err(nextScan.error) else Ok(c.(scan := nextScan.value));
      } else {
        r := Err(bh.error);
      }
    }

    method RecoverUnindexedBlocks(start: u64, end: u64) returns (err: Option<Error>)
      requires p.maxFile > 0
      modifies this`files, this`index, this`next, this`maxHeight
      ensures var (r, d) := Scan(p, old(State()).disk, Cursor(start, 0, 0), end);
              match r
              case Err(e) => err == Some(e) && State() == Store(d, old(State()).live)
              case Ok(c) => err == None && State() == DoFinish(p, Store(d, old(State()).live), c)
    {
      var c := Cursor(start, 0, 0);
      while c.scan < end
        invariant State().live == old(State()).live
        invariant Scan(p, State().disk, c, end) == Scan(p, old(State()).disk, Cursor(start, 0, 0), end)
        decreases end as int - c.scan as int
      {
        var step := ScanOnce(c, end);
        if step.Err? { return Some(step.error); }
        c := step.value;
      }
      next := c.scan;
      if c.num > 0 && (maxHeight == UNSET_HEIGHT || c.maxRec > maxHeight) { maxHeight := c.maxRec; }
      PersistIndexHeader();
      err := None;
    }

    method Recover() returns (err: Option<Error>)
      requires p.maxFile > 0
      modifies this`files, this`index, this`next, this`maxHeight
      ensures var (r, d) := Recovery.Recover(p, old(State()).disk, old(State()).live);
              match r
              case Err(e) => err == Some(e) && State() == Store(d, old(State()).live)
              case Ok(live) => err == None && State() == Store(d, live)
    {
      var last := ListDataFiles(files);
      if last.None? { return None; }
      var end := OnDiskEnd(p, files, last.value);
      if end.Err? { return Some(end.error); }
      if end.value == next { return None; }
      if end.value < next { return Some(Corrupted); }
      err := RecoverUnindexedBlocks(next, end.value);
    }

    /** Opens a database over whatever is on the disk, under the settings that the header decides. */
    static method Open(config: Params, cacheCap: nat, d: Disk) returns (err: Option<Error>, db: BlockDb)
      requires Configured(config, d).maxFile > 0
      ensures fresh(db) && db.p == Configured(config, d) && db.cacheCap == cacheCap && !db.closed && db.cache == []
      ensures var (r, d') := Recovery.Open(Configured(config, d), d);
              match r
              case Err(e) => err == Some(e) && db.State().disk == d'
              case Ok(live) => err == None && db.State() == Store(d', live)
    {
      var p := Configured(config, d);
      var (live, d1) := LoadHeader(p, d);
      db := new BlockDb.Load(p, cacheCap, d1, if live.Ok? then live.value else Live(0, UNSET_HEIGHT));
      if live.Err? { err := Some(live.error); } else { err := db.Recover(); }
    }

    // ----- writes -----

    method Put(height: u64, block: bytes) returns (r: Result<()>)
      requires p.maxFile > 0 && p.checkpoint > 0
      modifies this`files, this`index, this`next, this`maxHeight, this`cache
      ensures closed ==> r == Err(Closed) && State() == old(State()) && cache == old(cache)
      ensures !closed ==>
                && (r, State()) == DoPut(p, old(State()), Rec(height, block))
                && cache == if r.Ok? then CachePut(old(cache), cacheCap, height, block) else old(cache)
    {
      hide AllocateBlockSpace, WriteData, WriteAt;
      if closed { return Err(Closed); }
      if |block| > U32_MAX { return Err(BlockTooLarge); }
      var slot := IndexEntryOffset(p.minHeight, height);
      if slot.Err? { return Err(slot.error); }
      var compressed := p.compress(block);
      if |compressed| > U32_MAX { return Err(BlockTooLarge); }
      if SIZE_OF_BLOCK_ENTRY_HEADER + |compressed| > U32_MAX { return Err(Overflow); }
      var total: u32 := SIZE_OF_BLOCK_ENTRY_HEADER + |compressed|;
      var space := AllocateBlockSpace(next, total, p.maxFile);
      if space.Err? { return Err(space.error); }
      var (offset, newNext) := space.value;
      next := newNext;
      var header := BlockEntryHeader(height, |compressed|, p.checksum(block), BLOCK_ENTRY_VERSION);
      files := WriteData(files, offset, header.Marshal() + compressed, p.maxFile);
      index := index.Append(Write(slot.value, IndexEntry(offset, |compressed|).Marshal()));
      UpdateMaxHeight(height);
      cache := CachePut(cache, cacheCap, height, block);
      r := Ok(());
    }

    method UpdateMaxHeight(written: u64)
      requires p.checkpoint > 0
      modifies this`maxHeight, this`index
      ensures var s := DoRaise(old(State()), written);
              State() == if written % p.checkpoint == 0 then DoHeader(p, DoSync(p, s)) else s
    {
      if maxHeight == UNSET_HEIGHT || written > maxHeight { maxHeight := written; }
      if written % p.checkpoint == 0 { PersistIndexHeader(); }
    }

    method PersistIndexHeader()
      modifies this`index
      ensures State() == DoHeader(p, DoSync(p, old(State())))
    {
      if p.sync { index := index.Sync(); }
      index := index.Append(HeaderWrite(IndexFileHeader(INDEX_FILE_VERSION, p.maxFile, p.minHeight, maxHeight, next)));
    }

    method Close() returns (r: Result<()>)
      modifies this`closed, this`index
      ensures closed
      ensures r == if old(closed) then Err(Closed) else Ok(())
      ensures State() == if old(closed) then old(State()) else DoHeader(p, DoSync(p, old(State())))
    {
      if closed { return Err(Closed); }
      closed := true;
      PersistIndexHeader();
      r := Ok(());
    }

    // ----- reads -----

    method Get(height: u64) returns (r: Result<bytes>)
      requires p.maxFile > 0
      modifies this`cache, this`files
      ensures closed ==> r == Err(Closed) && cache == old(cache) && State() == old(State())
      ensures !closed ==> (r, State(), cache) == DoGet(p, cacheCap, old(State()), old(cache), height)
    {
      if closed { return Err(Closed); }
      var hit := CacheGet(cache, height);
      if hit.Some? {
        cache := CachePut(cache, cacheCap, height, hit.value);
        return Ok(hit.value);
      }
      r := GetUncached(p, State(), height);
      var entry := ReadBlockIndex(p, State(), height);
      if entry.Ok? { files := Touch(files, entry.value.offset, p.maxFile); }
      if r.Ok? { cache := CachePut(cache, cacheCap, height, r.value); }
    }

    method Has(height: u64) returns (r: Result<bool>)
      ensures r == if closed then Err(Closed) else DoHas(p, State(), height)
    {
      if closed { return Err(Closed); }
      var e := ReadBlockIndex(p, State(), height);
      if e.Ok? { return Ok(true); }
      r := if e.error == NotFound || e.error == InvalidBlockHeight then Ok(false) else Err(e.error);
    }

    method MaxHeight() returns (r: Option<u64>)
      ensures r == DoMaxHeight(State())
    {
      r := if maxHeight == UNSET_HEIGHT then None else Some(maxHeight);
    }
  }
}
