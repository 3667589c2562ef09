/** Power failures: any subset of the index writes since the last fsync may be lost. Exactly which of them leave a
    store that opens, and what that means for whole runs. */
module BlockPower {
  import opened Bytes
  import opened BlockFormat
  import opened BlockIndex
  import opened DataFiles
  import opened BlockLog
  import opened Recovery
  import opened BlockStore
  import opened BlockCrash
  import opened BlockRuns

  // ----- the first header is lost but a later slot write is not -----

  predicate ZeroHeader(b: bytes) {
    |b| >= SIZE_OF_INDEX_FILE_HEADER && AllZero(b[..SIZE_OF_INDEX_FILE_HEADER])
  }

  predicate IsSlotWrite(w: Write) {
    w.off >= SIZE_OF_INDEX_FILE_HEADER && |w.data| == SIZE_OF_INDEX_ENTRY
  }

  lemma {:induction false} SlotsWithoutHeader(ws: seq<Write>)
    requires forall w :: w in ws ==> IsSlotWrite(w)
    ensures ws != [] ==> ZeroHeader(ApplyWrites([], ws))
  {
    if ws != [] {
      var n := |ws| - 1;
      SlotsWithoutHeader(ws[..n]);
      assert IsSlotWrite(ws[n]) by { assert ws[n] in ws; }
      if n > 0 { assert ws[..n] != []; }
    }
  }

  lemma ZeroHeaderFails(p: Params, d: Disk)
    requires ZeroHeader(d.index.Visible())
    ensures LoadHeader(p, d).0 == Err(Corrupted)
  {
    ZerosAreEmpty(d.index.Visible()[..SIZE_OF_INDEX_FILE_HEADER]);
  }

  lemma KeptSlots(p: Params, f: IndexFile, log: seq<Rec>, w: Wit, keep: seq<bool>)
    requires GoodLog(p, log) && IndexInv(p, f, log, w)
    requires |keep| == |f.pending| && !HeaderSafe(f, keep)
    ensures Kept(f.pending, keep) != [] && forall x :: x in Kept(f.pending, keep) ==> IsSlotWrite(x)
  {
    assert w.hdr;
    KeptFirst(f.pending, keep);
    forall x | x in Kept(f.pending, keep) ensures IsSlotWrite(x) {
      assert x in Tail(f, w.hdr);
      var i :| w.k1 <= i < |log| && x == SlotWriteOf(p, log, i);
    }
  }

  /** After a power failure in any reachable state, opening succeeds if and only if the first header
      write reached the disk or none of the index writes after it did. */
  lemma ReopenIffHeaderSafe(p: Params, d: Disk, log: seq<Rec>, w: Wit, keep: seq<bool>)
    requires GoodLog(p, log) && d.files == FilesOf(p, log) && IndexInv(p, d.index, log, w)
    requires |keep| == |d.index.pending|
    ensures var r := Open(p, d.(index := d.index.PowerLoss(keep))).0;
            r == if HeaderSafe(d.index, keep) then Ok(Live(EndOf(p, log), MaxOf(log))) else Err(Corrupted)
  {
    var d' := d.(index := d.index.PowerLoss(keep));
    if HeaderSafe(d.index, keep) {
      var w' := PowerFailureKeeps(p, d.index, log, w, keep);
      ReopenServes(p, d', log, w');
    } else {
      KeptSlots(p, d.index, log, w, keep);
      SlotsWithoutHeader(Kept(d.index.pending, keep));
      ZeroHeaderFails(p, d');
    }
  }

  // ----- whole runs -----

  /** A store whose header is lost: it is down or has failed to open, and will not open. */
  predicate Lost(s: Sys) {
    ZeroHeader(s.store.disk.index.durable) && s.store.disk.index.pending == [] && (s.phase.Down? || s.phase.Failed?)
  }

  lemma LostStaysLost(p: Params, s: Sys, step: Step, s': Sys)
    requires p.maxFile > 0 && p.checkpoint > 0 && Lost(s) && Apply(p, s, step) == Some(s')
    ensures Lost(s')
  {
    ZeroHeaderFails(p, s.store.disk);
  }

  lemma UnsafeStepLoses(p: Params, s: Sys, w: Wit, step: Step, s': Sys)
    requires Inv(p, s, w) && Apply(p, s, step) == Some(s') && !SafeStep(s, step)
    ensures Lost(s')
  {
    hide Inv, IndexInv, FilesOf, GoodLog, AllZero, WriteAt, Kept;
    var f := s.store.disk.index;
    InvGivesIndex(p, s, w);
    KeptSlots(p, f, s.log, w, step.keep);
    SlotsWithoutHeader(Kept(f.pending, step.keep));
  }

  lemma InvGivesIndex(p: Params, s: Sys, w: Wit)
    requires Inv(p, s, w)
    ensures GoodLog(p, s.log) && s.store.disk.files == FilesOf(p, s.log) && IndexInv(p, s.store.disk.index, s.log, w)
  {
  }

  /** After one power failure that is not safe, the store is lost for the rest of the run. */
  lemma {:induction false} UnsafeRunIsLost(p: Params, steps: seq<Step>)
    requires Lawful(p) && p.sync && NoSentinel(steps) && Run(p, Empty, steps).Some? && !SafeFailures(p, steps)
    ensures Lost(Run(p, Empty, steps).value)
  {
    hide Apply, Inv, SafeFailures, SafeStep, Lost;
    if steps == [] {
      NoSteps(p);
    } else {
      var n := |steps| - 1;
      var s := Run(p, Empty, steps[..n]).value;
      SafeFailuresSplit(p, steps);
      if SafeFailures(p, steps[..n]) {
        var w := RunKeepsInv(p, steps[..n]);
        UnsafeStepLoses(p, s, w, steps[n], Run(p, Empty, steps).value);
      } else {
        UnsafeRunIsLost(p, steps[..n]);
        LostStaysLost(p, s, steps[n], Run(p, Empty, steps).value);
      }
    }
  }

  lemma NoSteps(p: Params)
    requires p.maxFile > 0 && p.checkpoint > 0
    ensures SafeFailures(p, [])
  {
  }

  lemma LostDoesNotOpen(p: Params, s: Sys, keep: seq<bool>)
    requires p.maxFile > 0 && Lost(s) && |keep| == |s.store.disk.index.pending|
    ensures Open(p, s.store.disk).0 == Err(Corrupted)
    ensures Open(p, s.store.disk.(index := s.store.disk.index.PowerLoss(keep))).0 == Err(Corrupted)
  {
    ZeroHeaderFails(p, s.store.disk);
    ZeroHeaderFails(p, s.store.disk.(index := s.store.disk.index.PowerLoss(keep)));
  }

  lemma LostIsInconsistent(p: Params, s: Sys, h: u64)
    requires p.maxFile > 0 && Lost(s)
    ensures !Consistent(p, s, h)
  {
    hide Open;
    LostDoesNotOpen(p, s, []);
  }

  /** Over every run with process crashes and power failures that keep any subset of the index writes: the store is
      consistent at a height if and only if every power failure of the run left the first header safe. */
  lemma ConsistentIffSafe(p: Params, steps: seq<Step>, h: u64)
    requires Lawful(p) && p.sync && NoSentinel(steps) && Run(p, Empty, steps).Some?
    ensures Consistent(p, Run(p, Empty, steps).value, h) <==> SafeFailures(p, steps)
  {
    hide Run, SafeFailures, Lost, Consistent;
    if SafeFailures(p, steps) {
      CrashConsistency(p, steps, h);
    } else {
      UnsafeRunIsLost(p, steps);
      LostIsInconsistent(p, Run(p, Empty, steps).value, h);
    }
  }

  /** One more power failure at the end of any run: the store opens if and only if that failure was safe, too. */
  lemma RunReopensIffHeaderSafe(p: Params, steps: seq<Step>, keep: seq<bool>)
    requires Lawful(p) && p.sync && NoSentinel(steps) && Run(p, Empty, steps).Some?
    requires |keep| == |Run(p, Empty, steps).value.store.disk.index.pending|
    ensures var d := Run(p, Empty, steps).value.store.disk;
            Open(p, d.(index := d.index.PowerLoss(keep))).0.Ok? <==> SafeFailures(p, steps) && HeaderSafe(d.index, keep)
  {
    hide Run, SafeFailures, Lost, Inv, Open, HeaderSafe;
    var s := Run(p, Empty, steps).value;
    if SafeFailures(p, steps) {
      var w := RunKeepsInv(p, steps);
      InvGivesIndex(p, s, w);
      ReopenIffHeaderSafe(p, s.store.disk, s.log, w, keep);
    } else {
      UnsafeRunIsLost(p, steps);
      LostDoesNotOpen(p, s, keep);
    }
  }

  /** A process that is at work has met no unsafe power failure. */
  lemma AtWorkIsSafe(p: Params, steps: seq<Step>)
    requires Lawful(p) && p.sync && NoSentinel(steps) && Run(p, Empty, steps).Some?
    requires !Run(p, Empty, steps).value.phase.Down? && !Run(p, Empty, steps).value.phase.Failed?
    ensures SafeFailures(p, steps)
  {
    hide Run, SafeFailures;
    if !SafeFailures(p, steps) { UnsafeRunIsLost(p, steps); }
  }

  /** One state where it is not safe: after the first put into an empty store, losing the header but not the slot. */
  lemma FirstHeaderLost(p: Params, r: Rec)
    requires GoodLog(p, [r])
    ensures var run := Run(p, Empty, WriteSteps(r));
            && run.Some?
            && var d := run.value.store.disk;
               && |d.index.pending| == 2 && !HeaderSafe(d.index, [false, true])
               && Open(p, d.(index := d.index.PowerLoss([false, true]))).0 == Err(Corrupted)
  {
    hide Run, Open, FilesOf, HeaderAt, SlotWriteOf;
    var s := WriteRun(p, r);
    var f, w := s.store.disk.index, Wit(0, 0, true);
    FirstIndexInv(p, r, f);
    KeptFirst(f.pending, [false, true]);
    assert Kept([f.pending[1]], [true]) == Kept([], []) + [f.pending[1]] by {
      assert [f.pending[1]][..0] == [] && [true][..0] == [];
    }
    assert f.pending[1..] == [f.pending[1]] && [false, true][1..] == [true];
    ReopenIffHeaderSafe(p, s.store.disk, [r], w, [false, true]);
  }

  lemma FirstIndexInv(p: Params, r: Rec, f: IndexFile)
    requires GoodLog(p, [r]) && f == IndexFile([], PutWrites(p, r)[..2])
    ensures IndexInv(p, f, [r], Wit(0, 0, true))
  {
    assert [r][..0] == [];
    forall x | x in Tail(f, true) ensures SlotWriteSince(p, [r], 0, x) {
      assert x == SlotWriteOf(p, [r], 0);
    }
  }
}
