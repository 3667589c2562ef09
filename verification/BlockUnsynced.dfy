/** Crash consistency without fsync. As long as only processes crash, a store that never syncs its index shows
    at every step what a store that does would show: the page cache outlives the process. */
module BlockUnsynced {
  import opened Bytes
  import opened BlockFormat
  import opened BlockIndex
  import opened DataFiles
  import opened BlockLog
  import opened Recovery
  import opened BlockStore
  import opened BlockSettings
  import opened BlockCrash
  import opened BlockRuns

  function Synced(p: Params): Params {
    p.(sync := true)
  }

  /** The same bytes are read from both disks. */
  predicate SameDisk(a: Disk, b: Disk) {
    a.files == b.files && a.index.Visible() == b.index.Visible()
  }

  predicate Same(s: Sys, t: Sys) {
    SameDisk(s.store.disk, t.store.disk) && s.store.live == t.store.live && s.phase == t.phase && s.log == t.log
  }

  // ----- opening -----

  lemma BlockHeaderSame(p: Params, files: Files, off: u64, total: u64)
    requires p.maxFile > 0
    ensures ReadBlockHeader(p, files, off, total) == ReadBlockHeader(Synced(p), files, off, total)
  {
    hide ReadData, UnmarshalBlockEntryHeader;
  }

  lemma PayloadSame(p: Params, files: Files, off: u64, bh: BlockEntryHeader)
    requires p.maxFile > 0
    ensures CheckPayload(p, files, off, bh) == CheckPayload(Synced(p), files, off, bh)
  {
    hide ReadData;
  }

  lemma RecoverBlockSame(p: Params, a: Disk, b: Disk, off: u64, total: u64)
    requires p.maxFile > 0 && SameDisk(a, b)
    ensures var (r, a') := RecoverBlockAt(p, a, off, total);
            var (t, b') := RecoverBlockAt(Synced(p), b, off, total);
            r == t && SameDisk(a', b')
  {
    hide ReadBlockHeader, CheckPayload, Touch, IndexEntryOffset, WriteAt, ApplyWrites;
    var f1 := Touch(a.files, off, p.maxFile);
    BlockHeaderSame(p, f1, off, total);
    var bh := ReadBlockHeader(p, f1, off, total);
    if bh.Ok? {
      PayloadSame(p, Touch(f1, off as nat + SIZE_OF_BLOCK_ENTRY_HEADER, p.maxFile), off, bh.value);
    }
  }

  lemma ScanStepSame(p: Params, a: Disk, b: Disk, c: Cursor, end: u64)
    requires p.maxFile > 0 && SameDisk(a, b)
    ensures var (r, a') := ScanStep(p, a, c, end);
            var (t, b') := ScanStep(Synced(p), b, c, end);
            r == t && SameDisk(a', b')
  {
    hide RecoverBlockAt;
    RecoverBlockSame(p, a, b, c.scan, end);
  }

  lemma {:induction false} ScanSame(p: Params, a: Disk, b: Disk, c: Cursor, end: u64)
    requires p.maxFile > 0 && SameDisk(a, b)
    ensures var (r, a') := Scan(p, a, c, end);
            var (t, b') := Scan(Synced(p), b, c, end);
            r == t && SameDisk(a', b')
    decreases end as int - c.scan as int
  {
    hide ScanStep;
    if c.scan < end {
      ScanStepSame(p, a, b, c, end);
      var (r, a') := ScanStep(p, a, c, end);
      if r.Ok? { ScanSame(p, a', ScanStep(Synced(p), b, c, end).1, r.value, end); }
    }
  }

  lemma LoadSame(p: Params, a: Disk, b: Disk)
    requires SameDisk(a, b)
    ensures var (r, a') := LoadHeader(p, a);
            var (t, b') := LoadHeader(Synced(p), b);
            r == t && SameDisk(a', b')
  {
  }

  lemma RecoverSame(p: Params, a: Disk, b: Disk, live: Live)
    requires p.maxFile > 0 && SameDisk(a, b)
    ensures var (r, a') := Recover(p, a, live);
            var (t, b') := Recover(Synced(p), b, live);
            r == t && SameDisk(a', b')
  {
    hide Scan;
    if a.files != map[] && DataEnd(p, a.files).Ok? {
      ScanSame(p, a, b, Cursor(live.next, 0, 0), DataEnd(p, a.files).value);
    }
  }

  lemma OpenSame(p: Params, a: Disk, b: Disk)
    requires p.maxFile > 0 && SameDisk(a, b)
    ensures var (r, a') := Open(p, a);
            var (t, b') := Open(Synced(p), b);
            r == t && SameDisk(a', b')
  {
    hide LoadHeader, Recover;
    LoadSame(p, a, b);
    var (r, a') := LoadHeader(p, a);
    if r.Ok? { RecoverSame(p, a', LoadHeader(Synced(p), b).1, r.value); }
  }

  // ----- steps -----

  /** Every step that the unsynced store takes, the synced one takes too. */
  lemma StepSame(p: Params, s: Sys, t: Sys, step: Step, s': Sys) returns (t': Sys)
    requires p.maxFile > 0 && p.checkpoint > 0 && Same(s, t) && !step.PowerFailure? && Apply(p, s, step) == Some(s')
    ensures Apply(Synced(p), t, step) == Some(t') && Same(s', t')
  {
    hide LoadHeader, ScanStep, AllocateBlockSpace, WriteData, WriteAt, ApplyWrites, IndexEntryOffset, FileStart;
    match step
    case OpenLoad =>
      LoadSame(p, s.store.disk, t.store.disk);
      t' := ApplyOpen(Synced(p), t).value;
    case ScanOne =>
      ScanStepSame(p, s.store.disk, t.store.disk, s.phase.c, s.phase.end);
      t' := ApplyScan(Synced(p), t).value;
    case ScanDone => t' := ApplyScanDone(t).value;
    case Begin(r) => t' := ApplyBegin(Synced(p), t, r).value;
    case WriteBlock => t' := ApplyData(Synced(p), t).value;
    case WriteSlot => t' := ApplySlot(Synced(p), t).value;
    case RaiseMax => t' := ApplyRaise(Synced(p), t).value;
    case Fsync => t' := ApplyFsync(Synced(p), t).value;
    case RewriteHeader => t' := ApplyHeader(Synced(p), t).value;
    case BeginClose => t' := t.(phase := Persist(ToDown));
    case ProcessCrash => t' := t.(phase := Down);
  }

  predicate NoPowerFailure(steps: seq<Step>) {
    forall i :: 0 <= i < |steps| ==> !steps[i].PowerFailure?
  }

  lemma NoFailureIsSafe(p: Params, steps: seq<Step>)
    requires p.maxFile > 0 && p.checkpoint > 0 && NoPowerFailure(steps)
    ensures SafeFailures(p, steps)
  {
  }

  lemma {:induction false} RunSame(p: Params, steps: seq<Step>) returns (t: Sys)
    requires p.maxFile > 0 && p.checkpoint > 0 && NoPowerFailure(steps) && Run(p, Empty, steps).Some?
    ensures Run(Synced(p), Empty, steps) == Some(t) && Same(Run(p, Empty, steps).value, t)
  {
    hide Apply;
    if steps == [] {
      t := Empty;
    } else {
      var n := |steps| - 1;
      var t0 := RunSame(p, steps[..n]);
      t := StepSame(p, Run(p, Empty, steps[..n]).value, t0, steps[n], Run(p, Empty, steps).value);
    }
  }

  // ----- the theorem -----

  lemma GetSame(p: Params, a: Store, b: Store, h: u64)
    requires p.maxFile > 0 && SameDisk(a.disk, b.disk) && a.live == b.live
    ensures GetUncached(p, a, h) == GetUncached(Synced(p), b, h)
  {
  }

  /** Whether or not the index is ever synced: over every run of opens, puts, checkpoints and closes with
      process crashes between any two steps, no open fails, and a store that is down reopens with the exact
      offset and maximum and serves the last completed block at every height. */
  lemma ProcessCrashConsistency(p: Params, steps: seq<Step>, h: u64)
    requires Lawful(p) && NoSentinel(steps) && NoPowerFailure(steps) && Run(p, Empty, steps).Some?
    ensures Consistent(p, Run(p, Empty, steps).value, h)
  {
    hide Run, Open, GetUncached, GoodLog, EndOf;
    var s := Run(p, Empty, steps).value;
    var t := RunSame(p, steps);
    NoFailureIsSafe(Synced(p), steps);
    CrashConsistency(Synced(p), steps, h);
    LogSame(Synced(p), p, s.log);
    OpenSame(p, s.store.disk, t.store.disk);
    GetSame(p, s.store, t.store, h);
    if s.phase.Down? {
      var (r, d) := Open(p, s.store.disk);
      GetSame(p, Store(d, r.value), Store(Open(Synced(p), t.store.disk).1, r.value), h);
    }
  }

  // ----- why power failures need the sync -----

  /** The two header writes without the slot between them: a header that covers the block, and no slot. */
  lemma LostSlot(p: Params, r: Rec, b: bytes)
    requires GoodLog(p, [r]) && b == ApplyWrites([], [PutWrites(p, r)[0], PutWrites(p, r)[2]])
    ensures b != [] && ReadIndexEntry(b, p.minHeight, r.height) == Err(NotFound)
    ensures ReadHeader(b) == Ok(IndexFileHeader(INDEX_FILE_VERSION, p.maxFile, p.minHeight, r.height, EndOf(p, [r])))
  {
    var ws := PutWrites(p, r);
    var h0 := IndexFileHeader(INDEX_FILE_VERSION, p.maxFile, p.minHeight, UNSET_HEIGHT, 0);
    var h1 := IndexFileHeader(INDEX_FILE_VERSION, p.maxFile, p.minHeight, r.height, EndOf(p, [r]));
    var b0 := Do([], HeaderWrite(h0));
    ApplyTwo(ws[0], ws[2]);
    assert [r][0] == r;
    HeaderWriteFrame([], h0, p.minHeight, r.height);
    HeaderWriteFrame(b0, h1, p.minHeight, r.height);
  }

  lemma ApplyTwo(v: Write, w: Write)
    ensures ApplyWrites([], [v, w]) == Do(Do([], v), w)
  {
    var one, two := [v], [v, w];
    assert one[..0] == [] && ApplyWrites([], one) == Do(ApplyWrites([], one[..0]), v);
    assert two[..1] == one && ApplyWrites([], two) == Do(ApplyWrites([], two[..1]), w);
  }

  /** Without the sync, one power failure that loses the slot write but not the header rewrite after it leaves
      a store that opens and no longer finds its block, whatever the block. */
  lemma UnsyncedPowerFailureLosesBlock(p: Params, r: Rec)
    requires GoodLog(p, [r]) && !p.sync
    ensures var run := Run(p, Empty, PutSteps(p, r) + [PowerFailure([true, false, true])]);
            && run.Some? && run.value.phase.Down? && run.value.log == [r]
            && var (live, d) := Open(p, run.value.store.disk);
               && live == Ok(Live(EndOf(p, [r]), r.height))
               && GetUncached(p, Store(d, live.value), r.height) == Err(NotFound)
  {
    hide Run, EndOf, FilesOf, ReadIndexEntry, ReadHeader, DataEnd;
    var s := PutRun(p, r);
    var keep := [true, false, true];
    var ws := PutWrites(p, r);
    KeepTwo(ws[0], ws[1], ws[2]);
    assert ws == [ws[0], ws[1], ws[2]];
    var b := ApplyWrites([], [ws[0], ws[2]]);
    var d := Disk(IndexFile(b, []), FilesOf(p, [r]));
    var s' := Sys(Store(d, s.store.live), Down, [r]);
    RunMore(p, PutSteps(p, r), s, PowerFailure(keep), s');
    LostSlot(p, r, b);
    DataEndGood(p, [r]);
    assert LoadHeader(p, d) == (Ok(Live(EndOf(p, [r]), r.height)), d);
  }

  lemma KeepTwo(u: Write, v: Write, w: Write)
    ensures Kept([u, v, w], [true, false, true]) == [u, w]
  {
    var ws, keep := [u, v, w], [true, false, true];
    assert ws[..2] == [u, v] && keep[..2] == [true, false];
    assert [u, v][..1] == [u] && [true, false][..1] == [true];
    assert Kept([u], [true]) == Kept([], []) + [u] by { assert [u][..0] == [] && [true][..0] == []; }
  }
}
