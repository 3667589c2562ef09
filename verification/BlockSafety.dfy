/** Exactly which stores are crash consistent over all runs whose power failures leave the first header safe; no
    store is over those that do not. */
module BlockSafety {
  import opened Bytes
  import opened BlockFormat
  import opened BlockIndex
  import opened DataFiles
  import opened BlockLog
  import opened Recovery
  import opened BlockStore
  import opened BlockTail
  import opened BlockSentinel
  import opened BlockCrash
  import opened BlockRuns
  import opened BlockPower
  import opened BlockUnsynced

  /** Every run with safe power failures and no put at the sentinel height is consistent, at every height. */
  ghost predicate SafeRuns(p: Params)
    requires p.maxFile > 0 && p.checkpoint > 0
  {
    forall steps: seq<Step>, h: u64 ::
      NoSentinel(steps) && Run(p, Empty, steps).Some? && SafeFailures(p, steps) ==>
        Consistent(p, Run(p, Empty, steps).value, h)
  }

  /** Every run with safe power failures is. */
  ghost predicate SafeWithSentinel(p: Params)
    requires p.maxFile > 0 && p.checkpoint > 0
  {
    forall steps: seq<Step>, h: u64 ::
      Run(p, Empty, steps).Some? && SafeFailures(p, steps) ==> Consistent(p, Run(p, Empty, steps).value, h)
  }

  // ----- the sync -----

  lemma LossIsInconsistent(p: Params, r: Rec, s: Sys)
    requires GoodLog(p, [r]) && s.phase.Down? && s.log == [r]
    requires var (live, d) := Open(p, s.store.disk);
             live.Ok? && GetUncached(p, Store(d, live.value), r.height) == Err(NotFound)
    ensures !Consistent(p, s, r.height)
  {
    assert [r][..0] == [] && ContentOf([r]) == map[][r.height := r.block];
  }

  function LossSteps(p: Params, r: Rec): seq<Step>
    requires p.checkpoint > 0
  {
    PutSteps(p, r) + [PowerFailure([true, false, true])]
  }

  lemma LossRun(p: Params, r: Rec)
    requires GoodLog(p, [r]) && !p.sync
    ensures NoSentinel(LossSteps(p, r)) && Run(p, Empty, LossSteps(p, r)).Some? && SafeFailures(p, LossSteps(p, r))
    ensures !Consistent(p, Run(p, Empty, LossSteps(p, r)).value, r.height)
  {
    hide Run, Open, Consistent, GetUncached;
    assert GoodRec(p, [r][0]);
    UnsyncedPowerFailureLosesBlock(p, r);
    LossIsSafe(p, r);
    LossIsInconsistent(p, r, Run(p, Empty, LossSteps(p, r)).value);
  }

  /** The header is among what that failure keeps. */
  lemma LossIsSafe(p: Params, r: Rec)
    requires GoodLog(p, [r]) && !p.sync
    ensures SafeFailures(p, LossSteps(p, r))
  {
    hide Run;
    var steps := LossSteps(p, r);
    assert forall i :: 0 <= i < |PutSteps(p, r)| ==> !steps[i].PowerFailure?;
  }

  /** A store that can take some block keeps its blocks over all runs with crashes and safe power failures if and
      only if it syncs its index before it rewrites the header. */
  lemma SafeIffSynced(p: Params, r: Rec)
    requires GoodLog(p, [r])
    ensures SafeRuns(p) <==> p.sync
  {
    hide Run, Consistent, SafeFailures;
    if p.sync {
      forall steps: seq<Step>, h: u64 | NoSentinel(steps) && Run(p, Empty, steps).Some? && SafeFailures(p, steps)
        ensures Consistent(p, Run(p, Empty, steps).value, h)
      {
        CrashConsistency(p, steps, h);
      }
    } else {
      LossRun(p, r);
    }
  }

  function LostSteps(r: Rec): seq<Step> {
    WriteSteps(r) + [PowerFailure([false, true])]
  }

  /** Synced or not, a store that can take some block has a run with one power failure that is not safe, after which
      it does not open. */
  lemma NoStoreSurvivesEveryFailure(p: Params, r: Rec)
    requires GoodLog(p, [r])
    ensures var run := Run(p, Empty, LostSteps(r));
            run.Some? && run.value.phase.Down? && Open(p, run.value.store.disk).0 == Err(Corrupted)
  {
    hide Run, Open;
    var s := WriteRun(p, r);
    FirstHeaderLost(p, r);
    RunMore(p, WriteSteps(r), s, PowerFailure([false, true]), ApplyPowerFailure(s, [false, true]).value);
  }

  // ----- puts at the sentinel -----

  lemma BeginNeedsSlot(p: Params, s: Sys, step: Step)
    requires p.maxFile > 0 && p.checkpoint > 0 && step.Begin? && Apply(p, s, step).Some?
    ensures HasSlot(p.minHeight, step.r.height)
  {
    hide AllocateBlockSpace;
  }

  /** Where the sentinel height has no slot, no run contains a put there. */
  lemma {:induction false} NoSlotNoSentinel(p: Params, steps: seq<Step>)
    requires p.maxFile > 0 && p.checkpoint > 0 && !HasSlot(p.minHeight, UNSET_HEIGHT) && Run(p, Empty, steps).Some?
    ensures NoSentinel(steps)
  {
    hide Apply, HasSlot;
    if steps != [] {
      var n := |steps| - 1;
      NoSlotNoSentinel(p, steps[..n]);
      assert forall i :: 0 <= i < n ==> steps[i] == steps[..n][i];
      if steps[n].Begin? { BeginNeedsSlot(p, Run(p, Empty, steps[..n]).value, steps[n]); }
    }
  }

  function SentinelSteps(r: Rec): seq<Step> {
    OpenAndReserve(r) + [WriteBlock] + [ProcessCrash]
  }

  lemma SentinelRun(p: Params, r: Rec) returns (d: Disk)
    requires Lawful(p) && InRange(p, r)
    ensures d == Disk(IndexFile([], [FirstHeader(p)]), WriteData(map[], 0, Frame(p, r), p.maxFile))
    ensures var run := Run(p, Empty, SentinelSteps(r));
            run.Some? && run.value.phase.Down? && run.value.store.disk == d
  {
    hide Run, WriteData, Frame;
    var s1 := ReserveRun(p, r);
    d := Disk(s1.store.disk.index, WriteData(map[], 0, Frame(p, r), p.maxFile));
    var s2 := Sys(Store(d, s1.store.live), DataDone(0, r), [] + [r]);
    RunMore(p, OpenAndReserve(r), s1, WriteBlock, s2);
    RunMore(p, OpenAndReserve(r) + [WriteBlock], s2, ProcessCrash, s2.(phase := Down));
  }

  /** Open an empty store, write a block at the sentinel height, crash: the store does not open again. */
  lemma SentinelCrashIsFatal(p: Params, r: Rec)
    requires Lawful(p) && InRange(p, r) && r.height == UNSET_HEIGHT
    ensures var run := Run(p, Empty, SentinelSteps(r));
            run.Some? && run.value.phase.Down? && Open(p, run.value.store.disk).0 == Err(Corrupted)
  {
    hide Run, Open, WriteData, RefusedAt, FilesOf, Frame, Tailed, Headed, EndOf;
    var d := SentinelRun(p, r);
    SentinelTail(p, r, d.files);
    FirstHeaded(p, d);
    SentinelRefused(p, d.files, [], r);
    RefusedTailFails(p, d, [], 0, |Frame(p, r)|, Frame(p, r), d.files);
  }

  lemma SentinelTail(p: Params, r: Rec, files: Files)
    requires Lawful(p) && InRange(p, r) && files == WriteData(map[], 0, Frame(p, r), p.maxFile)
    ensures GoodLog(p, []) && Tailed(p, files, [], |Frame(p, r)|, Frame(p, r))
    ensures TailOff(p, [], |Frame(p, r)|) == 0
  {
    FirstPlace(p, r);
    assert GoodLog(p, []);
  }

  lemma FirstHeaded(p: Params, d: Disk)
    requires Lawful(p) && d.index == IndexFile([], [FirstHeader(p)])
    ensures Headed(p, d, [], 0)
  {
    assert GoodLog(p, []);
    FreshIndex(p, []);
    var one := [FirstHeader(p)];
    assert one[..0] == [] && ApplyWrites([], one) == Do(ApplyWrites([], one[..0]), FirstHeader(p));
  }

  lemma SentinelRunFails(p: Params, r: Rec)
    requires Lawful(p) && InRange(p, r) && r.height == UNSET_HEIGHT
    ensures Run(p, Empty, SentinelSteps(r)).Some? && SafeFailures(p, SentinelSteps(r))
    ensures !Consistent(p, Run(p, Empty, SentinelSteps(r)).value, 0)
  {
    hide Run, Open;
    SentinelCrashIsFatal(p, r);
    NoFailureIsSafe(p, SentinelSteps(r));
  }

  /** With puts at every height the store accepts, that height must have no slot as well. */
  lemma SafeWithSentinelIff(p: Params, r: Rec)
    requires Lawful(p) && InRange(p, r)
    ensures SafeWithSentinel(p) <==> p.sync && !HasSlot(p.minHeight, UNSET_HEIGHT)
  {
    hide Run, Consistent, SafeFailures, HasSlot;
    if HasSlot(p.minHeight, UNSET_HEIGHT) {
      SentinelRunFails(p, Rec(UNSET_HEIGHT, r.block));
    } else {
      OneBlock(p, r);
      SafeIffSynced(p, r);
      if p.sync {
        forall steps: seq<Step>, h: u64 | Run(p, Empty, steps).Some? && SafeFailures(p, steps)
          ensures Consistent(p, Run(p, Empty, steps).value, h)
        {
          NoSlotNoSentinel(p, steps);
        }
      } else {
        LossRun(p, r);
      }
    }
  }
}
