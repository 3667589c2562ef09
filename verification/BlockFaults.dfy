/** Data writes that are torn or have only created their file: exactly when the store opens again, and what it
    then serves. */
module BlockFaults {
  import opened Bytes
  import opened BlockFormat
  import opened BlockIndex
  import opened DataFiles
  import opened BlockLog
  import opened Recovery
  import opened BlockStore
  import opened BlockSettings
  import opened BlockCrash
  import opened BlockPower
  import opened BlockTail
  import opened BlockRuns
  import opened BlockUnsynced

  // ----- a torn data write -----

  /** The files after only the first n bytes of the next block reached the disk; with none, the data file has
      been created if it is a new one, and not yet written. */
  ghost function TornFiles(p: Params, log: seq<Rec>, r: Rec, n: nat): Files
    requires GoodLog(p, log) && GoodLog(p, log + [r]) && n <= |Frame(p, r)|
  {
    WriteData(FilesOf(p, log), OffsetOf(p, log + [r], |log|), Frame(p, r)[..n], p.maxFile)
  }

  lemma TornIsTailed(p: Params, log: seq<Rec>, r: Rec, n: nat)
    requires GoodLog(p, log) && GoodLog(p, log + [r]) && n <= |Frame(p, r)|
    ensures OffsetOf(p, log + [r], |log|) == TailOff(p, log, |Frame(p, r)|)
    ensures Tailed(p, TornFiles(p, log, r, n), log, |Frame(p, r)|, Frame(p, r)[..n])
  {
    hide WriteData;
    assert GoodRec(p, (log + [r])[|log|]);
    SnocFrames(p, log, r);
    assert (Frames(p, log) + [Frame(p, r)])[..|log|] == Frames(p, log);
  }

  /** A proper part of a block: too few bytes for a header, or a header that promises more than there is. */
  lemma TornRefused(p: Params, files: Files, log: seq<Rec>, r: Rec, n: nat)
    requires GoodRec(p, r) && 0 < n < |Frame(p, r)| && Tailed(p, files, log, |Frame(p, r)|, Frame(p, r)[..n])
    ensures var off := TailOff(p, log, |Frame(p, r)|);
            RefusedAt(p, files, off, off + n)
  {
    hide WriteData, FilesOf, EndOf, TailOff;
    if n >= SIZE_OF_BLOCK_ENTRY_HEADER {
      TailHead(p, files, log, |Frame(p, r)|, Frame(p, r)[..n]);
      FrameParts(p, r);
      assert Frame(p, r)[..n][..SIZE_OF_BLOCK_ENTRY_HEADER] == Frame(p, r)[0..SIZE_OF_BLOCK_ENTRY_HEADER];
      BlockEntryHeaderRoundTrip(HeaderOf(p, r));
    }
  }

  lemma WholeIsRecoverable(p: Params, d: Disk, log: seq<Rec>, k: nat, r: Rec)
    requires Recoverable(p, d, log, k) && GoodLog(p, log + [r])
    ensures Recoverable(p, d.(files := TornFiles(p, log, r, |Frame(p, r)|)), log + [r], k)
  {
    hide WriteData, FilesOf, SlotsSince, OffsetOf, HeaderAt;
    assert Frame(p, r)[..|Frame(p, r)|] == Frame(p, r);
    DataGood(p, log, r);
    HeaderExtend(p, log, r, k);
    SlotsExtend(p, d.index.Visible(), log, r, k);
  }

  /** The scan can get past this many unused bytes: there are none, or enough to hold a block header. */
  predicate Passable(gap: int) {
    gap == 0 || gap >= SIZE_OF_BLOCK_ENTRY_HEADER
  }

  /** It can get past what the next block leaves unused of the file before it. */
  ghost predicate TailIsPassable(p: Params, log: seq<Rec>, r: Rec)
    requires GoodLog(p, log) && GoodLog(p, log + [r])
  {
    Passable(OffsetOf(p, log + [r], |log|) as int - EndOf(p, log) as int)
  }

  /** The disk opens with the write offset next and the maximum of log, and a read at h returns its last block. */
  ghost predicate OpensTo(p: Params, d: Disk, log: seq<Rec>, next: u64, h: u64)
    requires p.maxFile > 0
  {
    var (r, d') := Open(p, d);
    r == Ok(Live(next, MaxOf(log))) && GetUncached(p, Store(d', r.value), h) == Lookup(p.minHeight, ContentOf(log), h)
  }

  lemma TornWhole(p: Params, d: Disk, log: seq<Rec>, k: nat, r: Rec, h: u64)
    requires Recoverable(p, d, log, k) && GoodLog(p, log + [r])
    ensures OpensTo(p, d.(files := TornFiles(p, log, r, |Frame(p, r)|)), log + [r], EndOf(p, log + [r]), h)
  {
    hide Open, SlotsSince, FilesOf, EndOf, HeaderAt, ReadHeader, MaxOf, TornFiles, GetUncached, Lookup;
    var d', log' := d.(files := TornFiles(p, log, r, |Frame(p, r)|)), log + [r];
    WholeIsRecoverable(p, d, log, k, r);
    OpenGood(p, d', log', k);
    GetIsLookup(p, Store(Open(p, d').1, Open(p, d').0.value), log', |log'|, h);
  }

  lemma TornEmpty(p: Params, d: Disk, log: seq<Rec>, k: nat, r: Rec, h: u64)
    requires Recoverable(p, d, log, k) && GoodLog(p, log + [r])
    ensures var d' := d.(files := TornFiles(p, log, r, 0));
            if TailIsPassable(p, log, r) then OpensTo(p, d', log, OffsetOf(p, log + [r], |log|), h)
            else Open(p, d').0 == Err(Corrupted)
  {
    hide WriteData, FilesOf, SlotsSince, EndOf, OffsetOf, HeaderAt, ReadHeader, MaxOf, Place, Open, TornFiles,
         GetUncached, Lookup, Serves;
    var files := TornFiles(p, log, r, 0);
    TornIsTailed(p, log, r, 0);
    assert Frame(p, r)[..0] == [];
    EmptyTailOpens(p, d, log, k, |Frame(p, r)|, files);
    if TailIsPassable(p, log, r) {
      EmptyTailServes(p, d, log, k, |Frame(p, r)|, files);
      var (live, d') := Open(p, d.(files := files));
      ServesLookup(p, Store(d', live.value), log, h);
    }
  }

  lemma TornPart(p: Params, d: Disk, log: seq<Rec>, k: nat, r: Rec, n: nat)
    requires Recoverable(p, d, log, k) && GoodLog(p, log + [r]) && 0 < n < |Frame(p, r)|
    ensures Open(p, d.(files := TornFiles(p, log, r, n))).0 == Err(Corrupted)
  {
    hide WriteData, FilesOf, SlotsSince, EndOf, OffsetOf, HeaderAt, ReadHeader, Place, Open, TornFiles, RefusedAt;
    TornIsTailed(p, log, r, n);
    assert GoodRec(p, (log + [r])[|log|]);
    TornRefused(p, TornFiles(p, log, r, n), log, r, n);
    RefusedTailFails(p, d, log, k, |Frame(p, r)|, Frame(p, r)[..n], TornFiles(p, log, r, n));
  }

  /** What opening does after the first n bytes of the next block reached the disk, and what is then read at h. */
  lemma TornOutcome(p: Params, d: Disk, log: seq<Rec>, k: nat, r: Rec, n: nat, h: u64)
    requires Recoverable(p, d, log, k) && GoodLog(p, log + [r]) && n <= |Frame(p, r)|
    ensures var d' := d.(files := TornFiles(p, log, r, n));
            if n == |Frame(p, r)| then OpensTo(p, d', log + [r], EndOf(p, log + [r]), h)
            else if n == 0 && TailIsPassable(p, log, r) then OpensTo(p, d', log, OffsetOf(p, log + [r], |log|), h)
            else Open(p, d').0 == Err(Corrupted)
  {
    hide FilesOf, SlotsSince, EndOf, OffsetOf, HeaderAt, ReadHeader, MaxOf, Open, TornFiles, TailIsPassable, OpensTo;
    if n == |Frame(p, r)| {
      TornWhole(p, d, log, k, r, h);
    } else if n == 0 {
      TornEmpty(p, d, log, k, r, h);
    } else {
      TornPart(p, d, log, k, r, n);
    }
  }

  /** After a data write of which only the first n bytes reached the disk, opening succeeds if and only if the
      write is complete, or not begun with a tail before it that the scan can pass: nothing trims the files. */
  lemma TornReopensIff(p: Params, d: Disk, log: seq<Rec>, k: nat, r: Rec, n: nat)
    requires Recoverable(p, d, log, k) && GoodLog(p, log + [r]) && n <= |Frame(p, r)|
    ensures Open(p, d.(files := TornFiles(p, log, r, n))).0.Ok?
            <==> n == |Frame(p, r)| || (n == 0 && TailIsPassable(p, log, r))
  {
    hide FilesOf, SlotsSince, EndOf, OffsetOf, HeaderAt, ReadHeader, MaxOf, Open, TornFiles, TailIsPassable;
    TornOutcome(p, d, log, k, r, n, 0);
  }

  // ----- a process crash between creating a data file and writing it -----

  lemma CreationIsTorn(p: Params, log: seq<Rec>, r: Rec)
    requires GoodLog(p, log) && GoodLog(p, log + [r])
    ensures Touch(FilesOf(p, log), OffsetOf(p, log + [r], |log|), p.maxFile) == TornFiles(p, log, r, 0)
  {
    hide FilesOf, EndOf, OffsetOf, TornFiles;
    TornIsTailed(p, log, r, 0);
    assert Frame(p, r)[..0] == [];
    TailShape(p, TornFiles(p, log, r, 0), log, |Frame(p, r)|, []);
    var old' := Contents(FilesOf(p, log), FileOf(OffsetOf(p, log + [r], |log|), p.maxFile));
    assert old' + [] == old';
  }

  /** The disk a put leaves when the process dies after opening the block's data file and before writing it. */
  function Created(p: Params, s: Sys): Disk
    requires p.maxFile > 0 && s.phase.Reserved?
  {
    s.store.disk.(files := Touch(s.store.disk.files, s.phase.off, p.maxFile))
  }

  ghost predicate CreationOutcome(p: Params, s: Sys, h: u64)
    requires p.maxFile > 0 && s.phase.Reserved? && GoodLog(p, s.log)
  {
    if Passable(s.phase.off as int - EndOf(p, s.log) as int) then OpensTo(p, Created(p, s), s.log, s.phase.off, h)
    else Open(p, Created(p, s)).0 == Err(Corrupted)
  }

  lemma SyncedCreation(p: Params, s: Sys, w: Wit, h: u64)
    requires Inv(p, s, w) && s.phase.Reserved?
    ensures GoodLog(p, s.log) && CreationOutcome(p, s, h)
  {
    hide FilesOf, EndOf, OffsetOf, SlotsSince, HeaderAt, ReadHeader, MaxOf, Open, TornFiles, OpensTo;
    VisibleCovers(p, s.store.disk.index, s.log, w);
    CreationIsTorn(p, s.log, s.phase.r);
    TornEmpty(p, s.store.disk, s.log, w.k1, s.phase.r, h);
  }

  lemma CreationSame(p: Params, s: Sys, t: Sys, h: u64)
    requires p.maxFile > 0 && p.checkpoint > 0 && s.phase.Reserved? && Same(s, t)
    requires GoodLog(Synced(p), t.log) && CreationOutcome(Synced(p), t, h)
    ensures GoodLog(p, s.log) && CreationOutcome(p, s, h)
  {
    hide Open, EndOf, MaxOf, GoodLog, GetUncached, Lookup;
    LogSame(Synced(p), p, s.log);
    var a, b := Created(p, s), Created(Synced(p), t);
    OpenSame(p, a, b);
    if Open(p, a).0.Ok? {
      GetSame(p, Store(Open(p, a).1, Open(p, a).0.value), Store(Open(Synced(p), b).1, Open(p, a).0.value), h);
    }
  }

  /** In every run, a process crash between the two leaves a store that opens if and only if the block's tail can
      be passed, and then serves every completed block. */
  lemma CreationCrashIff(p: Params, steps: seq<Step>, h: u64)
    requires Lawful(p) && NoSentinel(steps) && (p.sync || NoPowerFailure(steps))
    requires Run(p, Empty, steps).Some? && Run(p, Empty, steps).value.phase.Reserved?
    ensures var s := Run(p, Empty, steps).value;
            && GoodLog(p, s.log)
            && CreationOutcome(p, s, h)
            && (Open(p, Created(p, s)).0.Ok? <==> Passable(s.phase.off as int - EndOf(p, s.log) as int))
  {
    hide Run, Open, EndOf, MaxOf, GoodLog, Inv, SameDisk, SafeFailures, GetUncached, Lookup;
    var s := Run(p, Empty, steps).value;
    if p.sync {
      AtWorkIsSafe(p, steps);
      var w := RunKeepsInv(p, steps);
      SyncedCreation(p, s, w, h);
    } else {
      var t := RunSame(p, steps);
      AtWorkIsSafe(Synced(p), steps);
      var w := RunKeepsInv(Synced(p), steps);
      SyncedCreation(Synced(p), t, w, h);
      CreationSame(p, s, t, h);
    }
  }

  // ----- one such crash -----

  function SmallFiles(checksum: bytes -> u64): Params {
    Params(0, 50, 2, true, Marked, Unmarked, checksum)
  }

  /** A block that leaves one byte of its file unused, and one that needs the next file. */
  const AlmostFull := Rec(1, seq(26, i => 0))
  const NextFile := Rec(2, [])

  lemma SmallLayout(p: Params, checksum: bytes -> u64)
    requires p == SmallFiles(checksum)
    ensures GoodLog(p, [AlmostFull]) && EndOf(p, [AlmostFull]) == 49
    ensures GoodLog(p, [AlmostFull] + [NextFile]) && OffsetOf(p, [AlmostFull] + [NextFile], 1) == 50
  {
    hide EndOf, OffsetOf;
    MarkerIsLawful(0, 50, 2, true, checksum);
    OneBlock(p, AlmostFull);
    AllocateIsLeastFit(49, 23, 50);
    AllocateGood(p, [AlmostFull], NextFile, 49);
  }

  /** The second block's file has been created when the process dies: the store does not open. */
  lemma FreshFileIsFatal(checksum: bytes -> u64)
    ensures var p := SmallFiles(checksum);
            var run := Run(p, Empty, TwoSteps(AlmostFull, NextFile));
            run.Some? && run.value.phase.Reserved? && Open(p, Created(p, run.value)).0 == Err(Corrupted)
  {
    hide Run, Open, EndOf, OffsetOf, FilesOf;
    var p := SmallFiles(checksum);
    SmallLayout(p, checksum);
    var s := TwoRun(p, AlmostFull, NextFile);
    CreationCrashIff(p, TwoSteps(AlmostFull, NextFile), 0);
  }
}
