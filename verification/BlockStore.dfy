/** The operations of the block store as steps on values, and what a store that holds a history answers. */
module BlockStore {
  import opened Bytes
  import opened BlockFormat
  import opened BlockIndex
  import opened DataFiles
  import opened BlockLog
  import opened Recovery

  /** The disk and the two in-memory counters. */
  datatype Store = Store(disk: Disk, live: Live)

  // ----- the steps of a put, in order -----

  /** The checks made before any state changes; the total size of the framed block on success. */
  function CheckPut(p: Params, r: Rec): Result<u32> {
    if |r.block| > U32_MAX then Err(BlockTooLarge)
    else
      match IndexEntryOffset(p.minHeight, r.height)
      case Err(e) => Err(e)
      case Ok(_) =>
        if |p.compress(r.block)| > U32_MAX then Err(BlockTooLarge)
        else if SIZE_OF_BLOCK_ENTRY_HEADER + |p.compress(r.block)| > U32_MAX then Err(Overflow)
        else Ok(SIZE_OF_BLOCK_ENTRY_HEADER + |p.compress(r.block)|)
  }

  /** Reserves space; the write offset is returned. */
  function DoAllocate(p: Params, s: Store, total: u32): Result<(u64, Store)> {
    match AllocateBlockSpace(s.live.next, total, p.maxFile)
    case Err(e) => Err(e)
    case Ok((off, next)) => Ok((off, s.(live := s.live.(next := next))))
  }

  function DoData(p: Params, s: Store, off: u64, r: Rec): Store
    requires p.maxFile > 0 && CheckPut(p, r).Ok?
  {
    s.(disk := s.disk.(files := WriteData(s.disk.files, off, Frame(p, r), p.maxFile)))
  }

  function DoSlot(p: Params, s: Store, off: u64, r: Rec): Store
    requires CheckPut(p, r).Ok?
  {
    s.(disk := s.disk.(index :=
      s.disk.index.Append(SlotWrite(p.minHeight, r.height, IndexEntry(off, |p.compress(r.block)|)))))
  }

  function DoRaise(s: Store, height: u64): Store {
    var cur := s.live.maxHeight;
    if cur != UNSET_HEIGHT && height <= cur then s else s.(live := s.live.(maxHeight := height))
  }

  function DoSync(p: Params, s: Store): Store {
    if p.sync then s.(disk := s.disk.(index := s.disk.index.Sync())) else s
  }

  function DoHeader(p: Params, s: Store): Store {
    s.(disk := s.disk.(index := s.disk.index.Append(
      HeaderWrite(IndexFileHeader(INDEX_FILE_VERSION, p.maxFile, p.minHeight, s.live.maxHeight, s.live.next)))))
  }

  /** A whole put on an open store. */
  function DoPut(p: Params, s: Store, r: Rec): (Result<()>, Store)
    requires p.maxFile > 0 && p.checkpoint > 0
  {
    match CheckPut(p, r)
    case Err(e) => (Err(e), s)
    case Ok(total) =>
      match DoAllocate(p, s, total)
      case Err(e) => (Err(e), s)
      case Ok((off, s1)) =>
        var s2 := DoRaise(DoSlot(p, DoData(p, s1, off, r), off, r), r.height);
        if r.height % p.checkpoint == 0 then (Ok(()), DoHeader(p, DoSync(p, s2))) else (Ok(()), s2)
  }

  /** The end of a recovery scan: store the counters, fsync, rewrite the header. */
  function DoFinish(p: Params, s: Store, c: Cursor): Store {
    DoHeader(p, DoSync(p, s.(live := Live(c.scan, Merge(s.live.maxHeight, c)))))
  }

  // ----- the LRU block cache, most recently used first -----

  type Cache = seq<(u64, bytes)>

  function Without(c: Cache, h: u64): Cache {
    if c == [] then [] else if c[0].0 == h then Without(c[1..], h) else [c[0]] + Without(c[1..], h)
  }

  /** A capacity of zero is the store without a cache. */
  function CachePut(c: Cache, cap: nat, h: u64, block: bytes): Cache {
    var c' := [(h, block)] + Without(c, h);
    if |c'| <= cap then c' else c'[..cap]
  }

  function CacheGet(c: Cache, h: u64): (r: Option<bytes>)
    ensures r.Some? ==> (h, r.value) in c
  {
    if c == [] then None else if c[0].0 == h then Some(c[0].1) else CacheGet(c[1..], h)
  }

  /** Every cached block is the current block at its height. */
  predicate CacheSound(c: Cache, m: map<u64, bytes>) {
    forall e :: e in c ==> e.0 in m && m[e.0] == e.1
  }

  lemma {:induction false} WithoutMembers(c: Cache, h: u64)
    ensures forall e :: e in Without(c, h) <==> e in c && e.0 != h
  {
    if c != [] { WithoutMembers(c[1..], h); }
  }

  /** Caching the block just stored or read, whatever gets evicted, keeps the cache sound. */
  lemma CachePutSound(c: Cache, cap: nat, h: u64, block: bytes, m: map<u64, bytes>)
    requires CacheSound(c, m)
    ensures CacheSound(CachePut(c, cap, h, block), m[h := block])
  {
    WithoutMembers(c, h);
  }

  // ----- reads -----

  function ReadBlockIndex(p: Params, s: Store, height: u64): Result<IndexEntry> {
    if s.live.maxHeight == UNSET_HEIGHT || height > s.live.maxHeight then Err(NotFound)
    else ReadIndexEntry(s.disk.index.Visible(), p.minHeight, height)
  }

  /** A read that misses the block cache. */
  function GetUncached(p: Params, s: Store, height: u64): Result<bytes>
    requires p.maxFile > 0
  {
    match ReadBlockIndex(p, s, height)
    case Err(e) => Err(e)
    case Ok(entry) =>
      match ReadData(s.disk.files, entry.offset, SIZE_OF_BLOCK_ENTRY_HEADER + entry.size as nat, p.maxFile)
      case Err(e) => Err(e)
      case Ok(buf) =>
        match UnmarshalBlockEntryHeader(buf[..SIZE_OF_BLOCK_ENTRY_HEADER])
        case Err(e) => Err(e)
        case Ok(bh) =>
          match p.decompress(buf[SIZE_OF_BLOCK_ENTRY_HEADER..])
          case None => Err(Compression)
          case Some(block) => if p.checksum(block) != bh.checksum then Err(ChecksumMismatch) else Ok(block)
  }

  /** A read opens the data file of the slot's offset, which creates it when it is missing. */
  function AfterRead(p: Params, s: Store, height: u64): Store
    requires p.maxFile > 0
  {
    match ReadBlockIndex(p, s, height)
    case Err(_) => s
    case Ok(entry) => s.(disk := s.disk.(files := Touch(s.disk.files, entry.offset, p.maxFile)))
  }

  function DoGet(p: Params, cap: nat, s: Store, cache: Cache, height: u64): (Result<bytes>, Store, Cache)
    requires p.maxFile > 0
  {
    match CacheGet(cache, height)
    case Some(block) => (Ok(block), s, CachePut(cache, cap, height, block))
    case None =>
      match GetUncached(p, s, height)
      case Err(e) => (Err(e), AfterRead(p, s, height), cache)
      case Ok(block) => (Ok(block), AfterRead(p, s, height), CachePut(cache, cap, height, block))
  }

  function DoHas(p: Params, s: Store, height: u64): Result<bool> {
    match ReadBlockIndex(p, s, height)
    case Ok(_) => Ok(true)
    case Err(NotFound) => Ok(false)
    case Err(InvalidBlockHeight) => Ok(false)
    case Err(e) => Err(e)
  }

  function DoMaxHeight(s: Store): Option<u64> {
    if s.live.maxHeight == UNSET_HEIGHT then None else Some(s.live.maxHeight)
  }

  // ----- the store refines a plain map -----

  /** The store holds exactly the history log; its visible header covers the first k blocks. */
  ghost predicate Holds(p: Params, s: Store, log: seq<Rec>, k: nat) {
    && Recoverable(p, s.disk, log, k)
    && SlotsSince(p, s.disk.index.Visible(), log, |log|)
    && s.live == Live(EndOf(p, log), MaxOf(log))
  }

  /** What a lookup in the plain map answers. */
  function Lookup(minHeight: u64, m: map<u64, bytes>, height: u64): Result<bytes> {
    if height in m then Ok(m[height])
    else if m != map[] && height < minHeight then Err(InvalidBlockHeight)
    else Err(NotFound)
  }

  /** The index and the maximum are those of log. */
  ghost predicate Indexes(p: Params, s: Store, log: seq<Rec>) {
    && GoodLog(p, log) && s.live.maxHeight == MaxOf(log)
    && SlotsSince(p, s.disk.index.Visible(), log, |log|)
  }

  /** The blocks of log are also where the index says, whatever else the files hold. */
  ghost predicate Serves(p: Params, s: Store, log: seq<Rec>) {
    && Indexes(p, s, log)
    && forall i :: 0 <= i < |log| ==> BlockAt(p, s.disk.files, OffsetOf(p, log, i), log[i])
  }

  lemma HoldsServes(p: Params, s: Store, log: seq<Rec>, k: nat)
    requires Holds(p, s, log, k)
    ensures Serves(p, s, log)
  {
    hide SlotsSince, BlockAt, FilesOf, EndOf, OffsetOf;
    forall i | 0 <= i < |log| ensures BlockAt(p, s.disk.files, OffsetOf(p, log, i), log[i]) {
      BlockAtOf(p, log, i);
    }
  }

  lemma ExactSlot(p: Params, s: Store, log: seq<Rec>, h: u64)
    requires Indexes(p, s, log) && HasSlot(p.minHeight, h)
    ensures ReadIndexEntry(s.disk.index.Visible(), p.minHeight, h) == SlotAt(p, log, |log|, h)
  {
    assert SlotSince(p, s.disk.index.Visible(), log, |log|, h);
  }

  lemma DecodeFrame(p: Params, r: Rec, buf: bytes)
    requires Lawful(p) && GoodRec(p, r) && buf == Frame(p, r)
    ensures UnmarshalBlockEntryHeader(buf[..22]) == Ok(HeaderOf(p, r))
    ensures p.decompress(buf[22..]) == Some(r.block)
  {
    assert buf[..22] == HeaderOf(p, r).Marshal();
    assert buf[22..] == p.compress(r.block);
    BlockEntryHeaderRoundTrip(HeaderOf(p, r));
  }

  lemma GetFromReads(p: Params, s: Store, h: u64, entry: IndexEntry, buf: bytes, bh: BlockEntryHeader, block: bytes)
    requires p.maxFile > 0 && ReadBlockIndex(p, s, h) == Ok(entry)
    requires ReadData(s.disk.files, entry.offset, 22 + entry.size as nat, p.maxFile) == Ok(buf)
    requires |buf| >= 22 && UnmarshalBlockEntryHeader(buf[..22]) == Ok(bh)
    requires p.decompress(buf[22..]) == Some(block) && bh.checksum == p.checksum(block)
    ensures GetUncached(p, s, h) == Ok(block)
  {
  }

  lemma GetStored(p: Params, s: Store, off: u64, r: Rec)
    requires BlockAt(p, s.disk.files, off, r)
    requires ReadBlockIndex(p, s, r.height) == Ok(IndexEntry(off, |p.compress(r.block)|))
    ensures GetUncached(p, s, r.height) == Ok(r.block)
  {
    ReadsBlock(p, s.disk.files, off, r);
    DecodeFrame(p, r, Frame(p, r));
    GetFromReads(p, s, r.height, IndexEntry(off, |p.compress(r.block)|), Frame(p, r), HeaderOf(p, r), r.block);
  }

  lemma HeightsSet(p: Params, log: seq<Rec>)
    requires GoodLog(p, log)
    ensures forall r :: r in log ==> r.height != UNSET_HEIGHT && HasSlot(p.minHeight, r.height)
  {
  }

  /** The slot answer of a height at or below the maximum: the last block's entry, or nothing. */
  lemma IndexAnswers(p: Params, s: Store, log: seq<Rec>, h: u64)
    requires Indexes(p, s, log)
    ensures h in ContentOf(log) ==>
              LastOf(log, h).Some? && ReadBlockIndex(p, s, h) == Ok(EntryOf(p, log, LastOf(log, h).value))
    ensures h !in ContentOf(log) ==>
              ReadBlockIndex(p, s, h)
              == Err(if ContentOf(log) != map[] && h < p.minHeight then InvalidBlockHeight else NotFound)
  {
    LastOfContent(log, h);
    HeightsSet(p, log);
    MaxOfIsMaximum(log);
    assert log[..|log|] == log;
    if h in ContentOf(log) {
      assert log[LastOf(log, h).value] in log;
      ExactSlot(p, s, log, h);
    } else if log != [] {
      MaxHasSlot(p, log);
      if p.minHeight <= h <= MaxOf(log) { ExactSlot(p, s, log, h); }
    }
  }

  lemma MaxHasSlot(p: Params, log: seq<Rec>)
    requires GoodLog(p, log) && log != []
    ensures p.minHeight <= MaxOf(log) && MaxOf(log) in ContentOf(log)
    ensures forall h: u64 :: p.minHeight <= h <= MaxOf(log) ==> HasSlot(p.minHeight, h)
  {
    HeightsSet(p, log);
    MaxOfIsMaximum(log);
    LastOfContent(log, MaxOf(log));
    assert log[LastOf(log, MaxOf(log)).value] in log;
  }

  /** Uncached reads of what is served are lookups in the plain map. */
  lemma ServesLookup(p: Params, s: Store, log: seq<Rec>, h: u64)
    requires Serves(p, s, log)
    ensures GetUncached(p, s, h) == Lookup(p.minHeight, ContentOf(log), h)
  {
    hide SlotsSince, BlockAt, OffsetOf, ReadBlockIndex, ReadData, MaxOf;
    IndexAnswers(p, s, log, h);
    LastOfContent(log, h);
    if h in ContentOf(log) {
      var i := LastOf(log, h).value;
      GetStored(p, s, OffsetOf(p, log, i), log[i]);
    } else {
      NothingIndexed(p, s, h);
    }
  }

  lemma NothingIndexed(p: Params, s: Store, h: u64)
    requires p.maxFile > 0 && ReadBlockIndex(p, s, h).Err?
    ensures GetUncached(p, s, h) == Err(ReadBlockIndex(p, s, h).error)
  {
  }

  lemma GetIsLookup(p: Params, s: Store, log: seq<Rec>, k: nat, h: u64)
    requires Holds(p, s, log, k)
    ensures GetUncached(p, s, h) == Lookup(p.minHeight, ContentOf(log), h)
  {
    hide GetUncached, Lookup, Serves;
    HoldsServes(p, s, log, k);
    ServesLookup(p, s, log, h);
  }

  // ----- a put appends to the history -----

  lemma SnocFrames(p: Params, log: seq<Rec>, r: Rec)
    requires GoodLog(p, log) && GoodRec(p, r)
    ensures Frames(p, log + [r]) == Frames(p, log) + [Frame(p, r)]
  {
  }

  /** When space can be reserved the longer history is good, and the reserved offset is its layout's. */
  lemma AllocateGood(p: Params, log: seq<Rec>, r: Rec, next: u64)
    requires GoodLog(p, log) && GoodRec(p, r) && next == EndOf(p, log)
    ensures var total: nat := |Frame(p, r)|;
            var a := AllocateBlockSpace(next, total, p.maxFile);
            && (a.Err? ==> a == Err(Overflow) && !GoodLog(p, log + [r]))
            && (a.Ok? ==>
                  && GoodLog(p, log + [r])
                  && a.value == (OffsetOf(p, log + [r], |log|), EndOf(p, log + [r])))
  {
    var total: nat := |Frame(p, r)|;
    AllocateIsLeastFit(next, total, p.maxFile);
    SnocFrames(p, log, r);
    var gs := Frames(p, log) + [Frame(p, r)];
    assert gs[..|log|] == Frames(p, log);
  }

  lemma DataGood(p: Params, log: seq<Rec>, r: Rec)
    requires GoodLog(p, log) && GoodLog(p, log + [r])
    ensures WriteData(FilesOf(p, log), OffsetOf(p, log + [r], |log|), Frame(p, r), p.maxFile) == FilesOf(p, log + [r])
  {
    assert GoodRec(p, (log + [r])[|log|]);
    SnocFrames(p, log, r);
    var gs := Frames(p, log) + [Frame(p, r)];
    assert gs[..|log|] == Frames(p, log);
  }

  lemma MaxOfSnoc(log: seq<Rec>, r: Rec)
    ensures MaxOf(log + [r]) == if MaxOf(log) == UNSET_HEIGHT || r.height > MaxOf(log) then r.height else MaxOf(log)
    ensures ContentOf(log + [r]) == ContentOf(log)[r.height := r.block]
  {
    assert (log + [r])[..|log|] == log;
  }

  /** The slot write of a put is the slot write the longer history calls for. */
  lemma SlotGood(p: Params, b: bytes, log: seq<Rec>, r: Rec, k: nat)
    requires GoodLog(p, log) && GoodLog(p, log + [r]) && k <= |log|
    requires SlotsSince(p, b, log, |log|) && ReadHeader(b) == Ok(HeaderAt(p, log, k))
    ensures var b' := Do(b, SlotWriteOf(p, log + [r], |log|));
            && SlotsSince(p, b', log + [r], |log| + 1)
            && ReadHeader(b') == Ok(HeaderAt(p, log + [r], k))
  {
    SlotsExtend(p, b, log, r, |log|);
    SlotWriteAdvances(p, b, log + [r], |log|);
    SlotWriteKeeps(p, b, log + [r], |log|, |log|);
    HeaderExtend(p, log, r, k);
  }

  /** A put that the store accepts, other than at the unset height, appends to the history; the visible
      header covers all of it after a checkpoint and as much as before otherwise. */
  lemma PutAppends(p: Params, s: Store, log: seq<Rec>, k: nat, r: Rec)
    requires Holds(p, s, log, k) && r.height != UNSET_HEIGHT
    requires DoPut(p, s, r).0.Ok?
    ensures GoodRec(p, r)
    ensures Holds(p, DoPut(p, s, r).1, log + [r], if r.height % p.checkpoint == 0 then |log| + 1 else k)
  {
    hide AllocateBlockSpace, DoHeader, DoSync, DoRaise, DoSlot, DoData, SlotsSince, FilesOf, OffsetOf, EndOf, MaxOf,
         GoodLog;
    var total := CheckPut(p, r).value;
    AllocateTooLarge(s.live.next, total, p.maxFile);
    AllocateGood(p, log, r, s.live.next);
    var (off, s1) := DoAllocate(p, s, total).value;
    WrittenHolds(p, s, log, k, r, off, s1);
    CheckpointGood(p, DoRaise(DoSlot(p, DoData(p, s1, off, r), off, r), r.height), log + [r], k);
  }

  /** With its space reserved, writing the block, its slot and the maximum lengthens the history. */
  lemma WrittenHolds(p: Params, s: Store, log: seq<Rec>, k: nat, r: Rec, off: u64, s1: Store)
    requires Holds(p, s, log, k) && GoodRec(p, r) && GoodLog(p, log + [r])
    requires off == OffsetOf(p, log + [r], |log|) && s1 == Store(s.disk, Live(EndOf(p, log + [r]), s.live.maxHeight))
    ensures Holds(p, DoRaise(DoSlot(p, DoData(p, s1, off, r), off, r), r.height), log + [r], k)
  {
    hide SlotsSince, FilesOf, AllocateBlockSpace, Frame, EndOf, WriteData;
    var log' := log + [r];
    assert log'[|log|] == r;
    DataGood(p, log, r);
    var s2 := DoSlot(p, DoData(p, s1, off, r), off, r);
    assert s2.disk.index == s.disk.index.Append(SlotWriteOf(p, log', |log|));
    SlotGood(p, s.disk.index.Visible(), log, r, k);
    MaxOfSnoc(log, r);
    SlotsWeaken(p, s2.disk.index.Visible(), log', |log'|, k);
  }

  lemma AllocateTooLarge(next: u64, total: u32, max: u64)
    requires total > 0
    ensures AllocateBlockSpace(next, total, max).Ok? ==> total <= max
  {
  }

  lemma CheckpointGood(p: Params, s: Store, log: seq<Rec>, k: nat)
    requires Holds(p, s, log, k)
    ensures Holds(p, DoHeader(p, DoSync(p, s)), log, |log|)
  {
    assert DoHeader(p, DoSync(p, s)).disk
        == s.disk.(index := PersistHeader(p, s.disk.index, EndOf(p, log), MaxOf(log)));
    PersistGood(p, s.disk, log);
  }

  /** Whether the space counter can take the block. */
  predicate HasRoom(p: Params, next: u64, r: Rec)
    requires InRange(p, r)
  {
    p.maxFile > 0 && Place(next, |Frame(p, r)|, p.maxFile) + |Frame(p, r)| <= U64_MAX
  }

  /** In every state a put is accepted exactly when block and height are in range and the space counter does
      not overflow; a refused put changes nothing. */
  lemma PutAccepts(p: Params, s: Store, r: Rec)
    requires p.maxFile > 0 && p.checkpoint > 0
    ensures DoPut(p, s, r).0.Ok? <==> InRange(p, r) && HasRoom(p, s.live.next, r)
    ensures DoPut(p, s, r).0.Err? ==> DoPut(p, s, r).1 == s
  {
    if CheckPut(p, r).Ok? { AllocateIsLeastFit(s.live.next, CheckPut(p, r).value, p.maxFile); }
  }

  /** Over a history, room in the counter is a layout of the longer history. */
  lemma RoomIsLayout(p: Params, log: seq<Rec>, r: Rec)
    requires GoodLog(p, log) && GoodRec(p, r)
    ensures HasRoom(p, EndOf(p, log), r) <==> GoodLog(p, log + [r])
  {
    SnocFrames(p, log, r);
    var gs := Frames(p, log) + [Frame(p, r)];
    assert gs[..|log|] == Frames(p, log);
    assert GoodLog(p, log + [r]) ==> forall i :: 0 <= i < |log + [r]| ==> GoodRec(p, (log + [r])[i]);
  }

  /** A put at the largest u64, which is also the unset sentinel, is accepted like any other that is in range;
      then the maximum reads as unset and no read that misses the cache finds any block. */
  lemma SentinelPut(p: Params, s: Store, r: Rec, h: u64)
    requires p.maxFile > 0 && p.checkpoint > 0
    requires r.height == UNSET_HEIGHT && InRange(p, r) && HasRoom(p, s.live.next, r)
    ensures DoPut(p, s, r).0 == Ok(())
    ensures DoMaxHeight(DoPut(p, s, r).1) == None && DoHas(p, DoPut(p, s, r).1, h) == Ok(false)
    ensures GetUncached(p, DoPut(p, s, r).1, h) == Err(NotFound)
  {
    PutAccepts(p, s, r);
  }
}
