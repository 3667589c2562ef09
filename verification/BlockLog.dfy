/** The history of a block store: the blocks whose data write completed, in order, and what the
    files must hold for that history. */
module BlockLog {
  import opened Bytes
  import opened BlockFormat
  import opened BlockIndex
  import opened DataFiles

  /** Header-authoritative settings, and the external compressor and checksum. */
  datatype Params = Params(
    minHeight: u64, maxFile: u64, checkpoint: u64, sync: bool,
    compress: bytes -> bytes, decompress: bytes -> Option<bytes>, checksum: bytes -> u64)

  ghost predicate Lawful(p: Params) {
    && p.maxFile > 0 && p.checkpoint > 0
    && forall b :: |p.compress(b)| >= 1 && p.decompress(p.compress(b)) == Some(b)
  }

  /** One compressor that will do: a marker byte before the data. */
  lemma MarkerIsLawful(minHeight: u64, maxFile: u64, checkpoint: u64, sync: bool, checksum: bytes -> u64)
    requires maxFile > 0 && checkpoint > 0
    ensures Lawful(Params(minHeight, maxFile, checkpoint, sync, Marked, Unmarked, checksum))
  {
    forall b: bytes ensures Unmarked(Marked(b)) == Some(b) {
      assert Marked(b)[1..] == b;
    }
  }

  function Marked(b: bytes): bytes {
    [0] + b
  }

  function Unmarked(d: bytes): Option<bytes> {
    if d == [] then None else Some(d[1..])
  }

  datatype Rec = Rec(height: u64, block: bytes)

  /** The height has a slot and the framed block fits in a data file. */
  predicate InRange(p: Params, r: Rec) {
    && HasSlot(p.minHeight, r.height)
    && |r.block| <= U32_MAX
    && SIZE_OF_BLOCK_ENTRY_HEADER + |p.compress(r.block)| <= U32_MAX
    && SIZE_OF_BLOCK_ENTRY_HEADER + |p.compress(r.block)| <= p.maxFile
  }

  /** The puts the store can later serve: all in range but those at the height that doubles as the unset
      sentinel. */
  predicate GoodRec(p: Params, r: Rec) {
    InRange(p, r) && r.height != UNSET_HEIGHT
  }

  function HeaderOf(p: Params, r: Rec): BlockEntryHeader
    requires |p.compress(r.block)| <= U32_MAX
  {
    BlockEntryHeader(r.height, |p.compress(r.block)|, p.checksum(r.block), BLOCK_ENTRY_VERSION)
  }

  /** The bytes of one data write: entry header, then the compressed block. */
  function Frame(p: Params, r: Rec): (f: bytes)
    requires |p.compress(r.block)| <= U32_MAX
    ensures |f| == SIZE_OF_BLOCK_ENTRY_HEADER + |p.compress(r.block)|
  {
    HeaderOf(p, r).Marshal() + p.compress(r.block)
  }

  function Frames(p: Params, log: seq<Rec>): (fs: seq<bytes>)
    requires forall i :: 0 <= i < |log| ==> GoodRec(p, log[i])
    ensures |fs| == |log|
    ensures forall i :: 0 <= i < |log| ==> GoodRec(p, log[i]) && fs[i] == Frame(p, log[i])
  {
    seq(|log|, i requires 0 <= i < |log| => assert GoodRec(p, log[i]); Frame(p, log[i]))
  }

  ghost predicate GoodLog(p: Params, log: seq<Rec>) {
    && Lawful(p)
    && (forall i :: 0 <= i < |log| ==> GoodRec(p, log[i]))
    && End(Frames(p, log), p.maxFile) <= U64_MAX
  }

  ghost function EndOf(p: Params, log: seq<Rec>): u64
    requires GoodLog(p, log)
  {
    End(Frames(p, log), p.maxFile)
  }

  /** The data files that hold the blocks of log. */
  ghost function FilesOf(p: Params, log: seq<Rec>): Files
    requires GoodLog(p, log)
  {
    Written(Frames(p, log), p.maxFile)
  }

  lemma GoodPrefix(p: Params, log: seq<Rec>, k: nat)
    requires GoodLog(p, log) && k <= |log|
    ensures GoodLog(p, log[..k])
    ensures Frames(p, log[..k]) == Frames(p, log)[..k]
    ensures EndOf(p, log[..k]) <= EndOf(p, log)
    ensures Framed(Frames(p, log), p.maxFile)
    ensures k < |log| ==>
              EndOf(p, log[..k]) <= Start(Frames(p, log), k, p.maxFile)
              && Start(Frames(p, log), k, p.maxFile) + |Frame(p, log[k])| <= EndOf(p, log)
  {
    assert Frames(p, log[..k]) == Frames(p, log)[..k];
    EndMonotone(Frames(p, log), k, p.maxFile);
  }

  /** The offset of block i. */
  ghost function OffsetOf(p: Params, log: seq<Rec>, i: nat): u64
    requires GoodLog(p, log) && i < |log|
  {
    GoodPrefix(p, log, i);
    Start(Frames(p, log), i, p.maxFile)
  }

  ghost function EntryOf(p: Params, log: seq<Rec>, i: nat): (e: IndexEntry)
    requires GoodLog(p, log) && i < |log|
    ensures !e.IsEmpty()
  {
    IndexEntry(OffsetOf(p, log, i), |p.compress(log[i].block)|)
  }

  /** Offsets, ends and entries of a block depend only on the blocks before it. */
  lemma PrefixAgrees(p: Params, log: seq<Rec>, more: seq<Rec>, i: nat)
    requires GoodLog(p, log + more) && i < |log|
    ensures GoodLog(p, log)
    ensures EntryOf(p, log, i) == EntryOf(p, log + more, i)
  {
    assert (log + more)[..|log|] == log;
    GoodPrefix(p, log + more, |log|);
    var fs, gs := Frames(p, log), Frames(p, log + more);
    assert fs[..i] == gs[..i];
  }

  // ----- what a history means -----

  /** The plain map the store stands for: the last block put at each height. */
  function ContentOf(log: seq<Rec>): map<u64, bytes> {
    if log == [] then map[]
    else
      var n := |log| - 1;
      ContentOf(log[..n])[log[n].height := log[n].block]
  }

  /** The position of the last block put at a height. */
  function LastOf(log: seq<Rec>, h: u64): (r: Option<nat>)
    ensures r.Some? ==> r.value < |log| && log[r.value].height == h
  {
    if log == [] then None
    else if log[|log| - 1].height == h then Some(|log| - 1)
    else LastOf(log[..|log| - 1], h)
  }

  lemma {:induction false} LastOfContent(log: seq<Rec>, h: u64)
    ensures h in ContentOf(log) <==> LastOf(log, h).Some?
    ensures h in ContentOf(log) ==> ContentOf(log)[h] == log[LastOf(log, h).value].block
  {
    if log != [] { LastOfContent(log[..|log| - 1], h); }
  }

  /** The highest height put so far, or the unset sentinel. */
  function MaxOf(log: seq<Rec>): u64 {
    if log == [] then UNSET_HEIGHT
    else
      var n := |log| - 1;
      var m := MaxOf(log[..n]);
      if m == UNSET_HEIGHT || log[n].height > m then log[n].height else m
  }

  lemma {:induction false} MaxOfIsMaximum(log: seq<Rec>)
    requires forall r :: r in log ==> r.height != UNSET_HEIGHT
    ensures MaxOf(log) == UNSET_HEIGHT <==> log == []
    ensures log != [] ==> MaxOf(log) in ContentOf(log)
    ensures forall h :: h in ContentOf(log) ==> h <= MaxOf(log)
  {
    if log != [] {
      var n := |log| - 1;
      assert forall r :: r in log[..n] ==> r in log;
      MaxOfIsMaximum(log[..n]);
    }
  }

  // ----- what the index must hold -----

  /** What the slot of h holds when the first j blocks are indexed. */
  ghost function SlotAt(p: Params, log: seq<Rec>, j: nat, h: u64): Result<IndexEntry>
    requires GoodLog(p, log) && j <= |log|
  {
    match LastOf(log[..j], h)
    case None => Err(NotFound)
    case Some(i) => Ok(EntryOf(p, log, i))
  }

  /** The slot of h is that of some prefix of the history of length at least k. */
  ghost predicate SlotSince(p: Params, b: bytes, log: seq<Rec>, k: nat, h: u64)
    requires GoodLog(p, log)
  {
    exists j :: k <= j <= |log| && ReadIndexEntry(b, p.minHeight, h) == SlotAt(p, log, j, h)
  }

  /** Every block before position k is indexed, by itself or by a later block at its height. */
  ghost predicate SlotsSince(p: Params, b: bytes, log: seq<Rec>, k: nat)
    requires GoodLog(p, log)
  {
    && Aligned(b)
    && forall h: u64 :: HasSlot(p.minHeight, h) ==> SlotSince(p, b, log, k, h)
  }

  ghost function HeaderAt(p: Params, log: seq<Rec>, k: nat): IndexFileHeader
    requires GoodLog(p, log) && k <= |log|
  {
    GoodPrefix(p, log, k);
    IndexFileHeader(INDEX_FILE_VERSION, p.maxFile, p.minHeight, MaxOf(log[..k]), EndOf(p, log[..k]))
  }

  ghost function SlotWriteOf(p: Params, log: seq<Rec>, i: nat): Write
    requires GoodLog(p, log) && i < |log|
  {
    SlotWrite(p.minHeight, log[i].height, EntryOf(p, log, i))
  }

  /** Writing any slot at or after k keeps the blocks before k indexed. */
  lemma SlotWriteKeeps(p: Params, b: bytes, log: seq<Rec>, k: nat, i: nat)
    requires GoodLog(p, log) && k <= i < |log| && SlotsSince(p, b, log, k)
    ensures SlotsSince(p, Do(b, SlotWriteOf(p, log, i)), log, k)
    ensures ReadHeader(Do(b, SlotWriteOf(p, log, i))) == ReadHeader(b)
  {
    var b' := Do(b, SlotWriteOf(p, log, i));
    var e := EntryOf(p, log, i);
    SlotWriteFrame(b, p.minHeight, log[i].height, e, 0);
    forall h: u64 | HasSlot(p.minHeight, h) ensures SlotSince(p, b', log, k, h) {
      SlotWriteFrame(b, p.minHeight, log[i].height, e, h);
      if h == log[i].height {
        assert log[..i + 1][|log[..i + 1]| - 1] == log[i];
        assert SlotAt(p, log, i + 1, h) == Ok(e);
      } else {
        assert SlotSince(p, b, log, k, h);
        var j :| k <= j <= |log| && ReadIndexEntry(b, p.minHeight, h) == SlotAt(p, log, j, h);
        assert ReadIndexEntry(b', p.minHeight, h) == SlotAt(p, log, j, h);
      }
    }
  }

  lemma SlotSinceNext(p: Params, b: bytes, b': bytes, log: seq<Rec>, i: nat, h: u64)
    requires GoodLog(p, log) && i < |log| && SlotSince(p, b, log, i, h)
    requires LastOf(log[..i + 1], h) == LastOf(log[..i], h)
    requires ReadIndexEntry(b', p.minHeight, h) == ReadIndexEntry(b, p.minHeight, h)
    ensures SlotSince(p, b', log, i + 1, h)
  {
    var j :| i <= j <= |log| && ReadIndexEntry(b, p.minHeight, h) == SlotAt(p, log, j, h);
    var j' := if j == i then i + 1 else j;
    assert i + 1 <= j' <= |log| && ReadIndexEntry(b', p.minHeight, h) == SlotAt(p, log, j', h);
  }

  lemma LastOfNext(log: seq<Rec>, i: nat, h: u64)
    requires i < |log|
    ensures LastOf(log[..i + 1], h) == if log[i].height == h then Some(i) else LastOf(log[..i], h)
  {
    var next := log[..i + 1];
    assert next[|next| - 1] == log[i] && next[..|next| - 1] == log[..i];
  }

  lemma SlotWriteAdvancesAt(p: Params, b: bytes, log: seq<Rec>, i: nat, h: u64)
    requires GoodLog(p, log) && i < |log| && Aligned(b) && SlotSince(p, b, log, i, h)
    ensures SlotSince(p, Do(b, SlotWriteOf(p, log, i)), log, i + 1, h)
  {
    var b' := Do(b, SlotWriteOf(p, log, i));
    LastOfNext(log, i, h);
    SlotWriteFrame(b, p.minHeight, log[i].height, EntryOf(p, log, i), h);
    if h == log[i].height {
      assert ReadIndexEntry(b', p.minHeight, h) == SlotAt(p, log, i + 1, h);
    } else {
      SlotSinceNext(p, b, b', log, i, h);
    }
  }

  /** Writing slot i when everything before i is indexed indexes one block more. */
  lemma SlotWriteAdvances(p: Params, b: bytes, log: seq<Rec>, i: nat)
    requires GoodLog(p, log) && i < |log| && SlotsSince(p, b, log, i)
    ensures SlotsSince(p, Do(b, SlotWriteOf(p, log, i)), log, i + 1)
  {
    SlotWriteFrame(b, p.minHeight, log[i].height, EntryOf(p, log, i), 0);
    forall h: u64 | HasSlot(p.minHeight, h)
      ensures SlotSince(p, Do(b, SlotWriteOf(p, log, i)), log, i + 1, h)
    {
      SlotWriteAdvancesAt(p, b, log, i, h);
    }
  }

  lemma SlotsWeaken(p: Params, b: bytes, log: seq<Rec>, k: nat, k': nat)
    requires GoodLog(p, log) && k' <= k && SlotsSince(p, b, log, k)
    ensures SlotsSince(p, b, log, k')
  {
    forall h: u64 | HasSlot(p.minHeight, h) ensures SlotSince(p, b, log, k', h) {
      assert SlotSince(p, b, log, k, h);
      var j :| k <= j <= |log| && ReadIndexEntry(b, p.minHeight, h) == SlotAt(p, log, j, h);
      assert k' <= j <= |log| && ReadIndexEntry(b, p.minHeight, h) == SlotAt(p, log, j, h);
    }
  }

  /** One more block in the history does not unsettle the slots. */
  lemma SlotsExtend(p: Params, b: bytes, log: seq<Rec>, r: Rec, k: nat)
    requires GoodLog(p, log) && GoodLog(p, log + [r]) && SlotsSince(p, b, log, k)
    ensures SlotsSince(p, b, log + [r], k)
  {
    var log' := log + [r];
    forall h: u64 | HasSlot(p.minHeight, h) ensures SlotSince(p, b, log', k, h) {
      assert SlotSince(p, b, log, k, h);
      var j :| k <= j <= |log| && ReadIndexEntry(b, p.minHeight, h) == SlotAt(p, log, j, h);
      assert log'[..j] == log[..j];
      if LastOf(log[..j], h).Some? {
        PrefixAgrees(p, log, [r], LastOf(log[..j], h).value);
      }
      assert ReadIndexEntry(b, p.minHeight, h) == SlotAt(p, log', j, h);
    }
  }

  lemma HeaderExtend(p: Params, log: seq<Rec>, r: Rec, k: nat)
    requires GoodLog(p, log) && GoodLog(p, log + [r]) && k <= |log|
    ensures HeaderAt(p, log + [r], k) == HeaderAt(p, log, k)
  {
    assert (log + [r])[..k] == log[..k];
  }

  lemma SlotWriteExtend(p: Params, log: seq<Rec>, r: Rec, i: nat)
    requires GoodLog(p, log) && GoodLog(p, log + [r]) && i < |log|
    ensures SlotWriteOf(p, log + [r], i) == SlotWriteOf(p, log, i)
  {
    PrefixAgrees(p, log, [r], i);
  }

  lemma HeaderWriteKeeps(p: Params, b: bytes, log: seq<Rec>, k: nat, h: IndexFileHeader)
    requires GoodLog(p, log) && SlotsSince(p, b, log, k)
    ensures SlotsSince(p, Do(b, HeaderWrite(h)), log, k)
    ensures ReadHeader(Do(b, HeaderWrite(h))) == Ok(h)
  {
    HeaderWriteFrame(b, h, p.minHeight, 0);
    forall x: u64 | HasSlot(p.minHeight, x) ensures SlotSince(p, Do(b, HeaderWrite(h)), log, k, x) {
      HeaderWriteFrame(b, h, p.minHeight, x);
      assert SlotSince(p, b, log, k, x);
      var j :| k <= j <= |log| && ReadIndexEntry(b, p.minHeight, x) == SlotAt(p, log, j, x);
      assert ReadIndexEntry(Do(b, HeaderWrite(h)), p.minHeight, x) == SlotAt(p, log, j, x);
    }
  }

  lemma EmptyFileSlot(minHeight: u64, h: u64)
    requires HasSlot(minHeight, h)
    ensures ReadIndexEntry([], minHeight, h) == Err(NotFound)
  {
  }

  /** A fresh index file: only the header, every slot past the end. */
  lemma FreshIndex(p: Params, log: seq<Rec>)
    requires GoodLog(p, log)
    ensures SlotsSince(p, Do([], HeaderWrite(HeaderAt(p, log, 0))), log, 0)
    ensures ReadHeader(Do([], HeaderWrite(HeaderAt(p, log, 0)))) == Ok(HeaderAt(p, log, 0))
  {
    hide ReadIndexEntry, ReadHeader, WriteAt, HeaderAt, EntryOf;
    var b := Do([], HeaderWrite(HeaderAt(p, log, 0)));
    HeaderWriteFrame([], HeaderAt(p, log, 0), p.minHeight, 0);
    forall x: u64 | HasSlot(p.minHeight, x) ensures SlotSince(p, b, log, 0, x) {
      EmptyFileSlot(p.minHeight, x);
      HeaderWriteFrame([], HeaderAt(p, log, 0), p.minHeight, x);
      assert ReadIndexEntry(b, p.minHeight, x) == SlotAt(p, log, 0, x);
    }
  }
}
