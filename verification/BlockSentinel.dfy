/** Puts at the height that doubles as the unset sentinel: what they do to the disk. */
module BlockSentinel {
  import opened Bytes
  import opened BlockFormat
  import opened BlockIndex
  import opened DataFiles
  import opened BlockLog
  import opened Recovery
  import opened BlockStore
  import opened BlockTail

  /** Recovery refuses a block whose header names the sentinel. */
  lemma SentinelRefused(p: Params, files: Files, log: seq<Rec>, r: Rec)
    requires InRange(p, r) && r.height == UNSET_HEIGHT && Tailed(p, files, log, |Frame(p, r)|, Frame(p, r))
    ensures var off := TailOff(p, log, |Frame(p, r)|);
            RefusedAt(p, files, off, off + |Frame(p, r)|)
  {
    hide WriteData, FilesOf, EndOf, TailOff;
    TailHead(p, files, log, |Frame(p, r)|, Frame(p, r));
    FrameParts(p, r);
    BlockEntryHeaderRoundTrip(HeaderOf(p, r));
  }

  /** The data write, the slot write and the counters of an accepted put. */
  ghost function Stored(p: Params, s: Store, r: Rec): Store
    requires InRange(p, r) && HasRoom(p, s.live.next, r)
  {
    var off: u64 := Place(s.live.next, |Frame(p, r)|, p.maxFile);
    DoRaise(Store(Disk(s.disk.index.Append(SlotWrite(p.minHeight, r.height, IndexEntry(off, |p.compress(r.block)|))),
                       WriteData(s.disk.files, off, Frame(p, r), p.maxFile)),
                  Live(off as nat + |Frame(p, r)|, s.live.maxHeight)),
            r.height)
  }

  lemma PutStores(p: Params, s: Store, r: Rec)
    requires p.maxFile > 0 && p.checkpoint > 0 && InRange(p, r) && HasRoom(p, s.live.next, r)
    ensures DoPut(p, s, r).1
         == if r.height % p.checkpoint == 0 then DoHeader(p, DoSync(p, Stored(p, s, r))) else Stored(p, s, r)
  {
    hide WriteData, AllocateBlockSpace, Place, DoRaise, DoHeader, DoSync, Frame;
    AllocateIsLeastFit(s.live.next, |Frame(p, r)|, p.maxFile);
  }

  /** What an accepted put at the sentinel leaves, before any checkpoint. */
  lemma SentinelDisk(p: Params, s: Store, log: seq<Rec>, k: nat, r: Rec)
    requires Holds(p, s, log, k) && r.height == UNSET_HEIGHT && InRange(p, r) && HasRoom(p, s.live.next, r)
    requires r.height % p.checkpoint != 0
    ensures var d := DoPut(p, s, r).1.disk;
            && Tailed(p, d.files, log, |Frame(p, r)|, Frame(p, r))
            && Headed(p, d, log, k)
  {
    hide DoPut, SlotsSince, FilesOf, EndOf, WriteData, ReadHeader, HeaderAt;
    PutStores(p, s, r);
    var b := s.disk.index.Visible();
    Alignment(p, b, log, |log|);
    var off: u64 := Place(s.live.next, |Frame(p, r)|, p.maxFile);
    SlotWriteFrame(b, p.minHeight, r.height, IndexEntry(off, |p.compress(r.block)|), 0);
  }

  lemma Alignment(p: Params, b: bytes, log: seq<Rec>, k: nat)
    requires GoodLog(p, log) && SlotsSince(p, b, log, k)
    ensures Aligned(b)
  {
  }

  /** A put at the sentinel that no checkpoint follows: the next open refuses the block. */
  lemma SentinelUnsaved(p: Params, s: Store, log: seq<Rec>, k: nat, r: Rec)
    requires Holds(p, s, log, k) && r.height == UNSET_HEIGHT && InRange(p, r) && HasRoom(p, s.live.next, r)
    requires r.height % p.checkpoint != 0
    ensures Open(p, DoPut(p, s, r).1.disk).0 == Err(Corrupted)
  {
    hide DoPut, Open, FilesOf, SlotsSince, EndOf, RefusedAt, WriteData, ReadHeader;
    var d := DoPut(p, s, r).1.disk;
    SentinelDisk(p, s, log, k, r);
    SentinelRefused(p, d.files, log, r);
    RefusedTailFails(p, d, log, k, |Frame(p, r)|, Frame(p, r), d.files);
  }

  lemma HeaderLands(p: Params, s: Store)
    ensures ReadHeader(DoHeader(p, s).disk.index.Visible())
         == Ok(IndexFileHeader(INDEX_FILE_VERSION, p.maxFile, p.minHeight, s.live.maxHeight, s.live.next))
  {
    hide ReadHeader, WriteAt, ApplyWrites;
    HeaderReads(s.disk.index.Visible(),
                IndexFileHeader(INDEX_FILE_VERSION, p.maxFile, p.minHeight, s.live.maxHeight, s.live.next));
  }

  /** What it leaves with a checkpoint. */
  lemma SavedDisk(p: Params, s: Store, log: seq<Rec>, k: nat, r: Rec)
    requires Holds(p, s, log, k) && r.height == UNSET_HEIGHT && InRange(p, r) && HasRoom(p, s.live.next, r)
    requires r.height % p.checkpoint == 0
    ensures var d, total := DoPut(p, s, r).1.disk, |Frame(p, r)|;
            && Tailed(p, d.files, log, total, Frame(p, r))
            && var next: u64 := TailOff(p, log, total) + total;
               ReadHeader(d.index.Visible())
               == Ok(IndexFileHeader(INDEX_FILE_VERSION, p.maxFile, p.minHeight, UNSET_HEIGHT, next))
  {
    hide DoPut, SlotsSince, FilesOf, EndOf, WriteData, HeaderAt, ReadHeader, WriteAt, ApplyWrites, MaxOf, Place, Frame;
    PutStores(p, s, r);
    HeaderLands(p, DoSync(p, Stored(p, s, r)));
  }

  lemma LoadsHeader(p: Params, d: Disk, h: IndexFileHeader)
    requires ReadHeader(d.index.Visible()) == Ok(h) && h.version == INDEX_FILE_VERSION
    ensures LoadHeader(p, d) == (Ok(Live(h.nextWriteOffset, h.maxHeight)), d)
  {
  }

  /** With a checkpoint the header covers the block, and the next open does not look at it. */
  lemma SentinelSaved(p: Params, s: Store, log: seq<Rec>, k: nat, r: Rec)
    requires Holds(p, s, log, k) && r.height == UNSET_HEIGHT && InRange(p, r) && HasRoom(p, s.live.next, r)
    requires r.height % p.checkpoint == 0
    ensures Open(p, DoPut(p, s, r).1.disk).0 == Ok(Live(TailOff(p, log, |Frame(p, r)|) + |Frame(p, r)|, UNSET_HEIGHT))
  {
    hide DoPut, SlotsSince, FilesOf, EndOf, WriteData, HeaderAt, DataEnd, Open, ReadHeader, LoadHeader;
    var d, total := DoPut(p, s, r).1.disk, |Frame(p, r)|;
    SavedDisk(p, s, log, k, r);
    TailEnd(p, d.files, log, total, Frame(p, r));
    LoadsHeader(p, d, ReadHeader(d.index.Visible()).value);
    OpenSettled(p, d, Live(TailOff(p, log, total) + total, UNSET_HEIGHT));
  }

  lemma OrdinaryPutReopens(p: Params, s: Store, log: seq<Rec>, k: nat, r: Rec)
    requires Holds(p, s, log, k) && GoodRec(p, r) && HasRoom(p, s.live.next, r)
    ensures GoodLog(p, log + [r])
    ensures Open(p, DoPut(p, s, r).1.disk).0 == Ok(Live(EndOf(p, log + [r]), MaxOf(log + [r])))
  {
    hide DoPut, Open, SlotsSince, FilesOf, HeaderAt, ReadHeader;
    PutAccepts(p, s, r);
    PutAppends(p, s, log, k, r);
    var k' := if r.height % p.checkpoint == 0 then |log| + 1 else k;
    OpenGood(p, DoPut(p, s, r).1.disk, log + [r], k');
  }

  /** A crash right after an accepted put: the store opens again if and only if the put was not at the sentinel,
      or a checkpoint followed it. */
  lemma PutReopensIff(p: Params, s: Store, log: seq<Rec>, k: nat, r: Rec)
    requires Holds(p, s, log, k) && InRange(p, r) && HasRoom(p, s.live.next, r)
    ensures DoPut(p, s, r).0.Ok?
    ensures Open(p, DoPut(p, s, r).1.disk).0.Ok? <==> r.height != UNSET_HEIGHT || r.height % p.checkpoint == 0
    ensures Open(p, DoPut(p, s, r).1.disk).0.Err? ==> Open(p, DoPut(p, s, r).1.disk).0 == Err(Corrupted)
  {
    hide DoPut, Open, SlotsSince, FilesOf, EndOf, MaxOf, HeaderAt, ReadHeader;
    PutAccepts(p, s, r);
    if r.height != UNSET_HEIGHT {
      OrdinaryPutReopens(p, s, log, k, r);
    } else if r.height % p.checkpoint == 0 {
      SentinelSaved(p, s, log, k, r);
    } else {
      SentinelUnsaved(p, s, log, k, r);
    }
  }

  // ----- one such put -----

  function LastHeight(checksum: bytes -> u64): Params {
    Params(U64_MAX, 1000, 2, true, Marked, Unmarked, checksum)
  }

  const EmptyDisk := Disk(IndexFile([], []), map[])

  /** A store that starts at the last height: it opens, takes an empty block there, and does not open again. */
  lemma SentinelPutIsFatal(checksum: bytes -> u64)
    ensures var p, r := LastHeight(checksum), Rec(UNSET_HEIGHT, []);
            && Open(p, EmptyDisk).0 == Ok(Live(0, UNSET_HEIGHT))
            && var (done, s) := DoPut(p, Store(Open(p, EmptyDisk).1, Live(0, UNSET_HEIGHT)), r);
               done.Ok? && Open(p, s.disk).0 == Err(Corrupted)
  {
    hide DoPut, Open, SlotsSince, HeaderAt, ReadHeader;
    var p, r := LastHeight(checksum), Rec(UNSET_HEIGHT, []);
    MarkerIsLawful(U64_MAX, 1000, 2, true, checksum);
    assert GoodLog(p, []);
    OpenFresh(p, EmptyDisk, []);
    var s := Store(Open(p, EmptyDisk).1, Live(0, UNSET_HEIGHT));
    assert Holds(p, s, [], 0) by { FreshHolds(p, s); }
    assert |Frame(p, r)| == 23;
    PutReopensIff(p, s, [], 0, r);
  }

  lemma FreshHolds(p: Params, s: Store)
    requires Recoverable(p, s.disk, [], 0) && s.live == Live(0, UNSET_HEIGHT)
    ensures Holds(p, s, [], 0)
  {
  }
}
