/** The store's operations are runs of the crash machine: whole opens, puts and closes, step by step. */
module BlockSteps {
  import opened Bytes
  import opened BlockFormat
  import opened BlockIndex
  import opened DataFiles
  import opened BlockLog
  import opened Recovery
  import opened BlockStore
  import opened BlockCrash

  lemma RunOn(p: Params, s0: Sys, steps: seq<Step>, s: Sys, step: Step, s': Sys)
    requires p.maxFile > 0 && p.checkpoint > 0 && Run(p, s0, steps) == Some(s) && Apply(p, s, step) == Some(s')
    ensures Run(p, s0, steps + [step]) == Some(s')
  {
    assert (steps + [step])[..|steps|] == steps;
  }

  // ----- puts -----

  /** The steps of a put; those at a checkpoint go on to sync the index and then rewrite the header. */
  function StepsOfPut(p: Params, r: Rec): seq<Step>
    requires p.checkpoint > 0
  {
    [Begin(r)] + [WriteBlock] + [WriteSlot] + [RaiseMax]
    + if r.height % p.checkpoint == 0 then [Fsync] + [RewriteHeader] else []
  }

  /** A put is refused before its first step, or it is these steps. */
  lemma PutIsRun(p: Params, s: Sys, r: Rec)
    requires p.maxFile > 0 && p.checkpoint > 0 && s.phase.Idle?
    ensures var (done, store) := DoPut(p, s.store, r);
            if done.Err? then Apply(p, s, Begin(r)) == None && store == s.store
            else Run(p, s, StepsOfPut(p, r)) == Some(Sys(store, Idle, s.log + [r]))
  {
    hide Run, AllocateBlockSpace, DoData, DoSlot, DoRaise, DoSync, DoHeader;
    if DoPut(p, s.store, r).0.Ok? {
      var (off, st1) := DoAllocate(p, s.store, CheckPut(p, r).value).value;
      var st2 := DoData(p, st1, off, r);
      var st3 := DoSlot(p, st2, off, r);
      var st4 := DoRaise(st3, r.height);
      var log := s.log + [r];
      PutWritten(p, s, r, off, st1, st2, st3);
      var s3 := Sys(st3, SlotDone(r), log);
      var steps := [Begin(r)] + [WriteBlock] + [WriteSlot];
      if r.height % p.checkpoint == 0 {
        RunOn(p, s, steps, s3, RaiseMax, Sys(st4, Persist(ToIdle), log));
        PersistRun(p, s, steps + [RaiseMax], Sys(st4, Persist(ToIdle), log));
        assert steps + [RaiseMax] + [Fsync] + [RewriteHeader] == StepsOfPut(p, r);
      } else {
        RunOn(p, s, steps, s3, RaiseMax, Sys(st4, Idle, log));
        assert steps + [RaiseMax] == StepsOfPut(p, r);
      }
    }
  }

  lemma PutWritten(p: Params, s: Sys, r: Rec, off: u64, st1: Store, st2: Store, st3: Store)
    requires p.maxFile > 0 && p.checkpoint > 0 && s.phase.Idle? && CheckPut(p, r).Ok?
    requires DoAllocate(p, s.store, CheckPut(p, r).value) == Ok((off, st1))
    requires st2 == DoData(p, st1, off, r) && st3 == DoSlot(p, st2, off, r)
    ensures Run(p, s, [Begin(r)] + [WriteBlock] + [WriteSlot]) == Some(Sys(st3, SlotDone(r), s.log + [r]))
  {
    hide Run, DoAllocate, DoData, DoSlot, CheckPut;
    var s1 := s.(store := st1, phase := Reserved(off, r));
    var s2 := Sys(st2, DataDone(off, r), s.log + [r]);
    NoSteps(p, s);
    RunOn(p, s, [], s, Begin(r), s1);
    assert [] + [Begin(r)] == [Begin(r)];
    RunOn(p, s, [Begin(r)], s1, WriteBlock, s2);
    RunOn(p, s, [Begin(r)] + [WriteBlock], s2, WriteSlot, Sys(st3, SlotDone(r), s.log + [r]));
  }

  lemma NoSteps(p: Params, s: Sys)
    requires p.maxFile > 0 && p.checkpoint > 0
    ensures Run(p, s, []) == Some(s)
  {
  }

  /** Syncing the index comes before rewriting the header. */
  lemma PersistRun(p: Params, s0: Sys, steps: seq<Step>, s: Sys)
    requires p.maxFile > 0 && p.checkpoint > 0 && Run(p, s0, steps) == Some(s) && s.phase.Persist?
    ensures Run(p, s0, steps + [Fsync] + [RewriteHeader])
         == Some(Sys(DoHeader(p, DoSync(p, s.store)), if s.phase.t.ToIdle? then Idle else Down, s.log))
  {
    hide Run, DoSync, DoHeader;
    var s1 := s.(store := DoSync(p, s.store), phase := PersistSynced(s.phase.t));
    RunOn(p, s0, steps, s, Fsync, s1);
    RunOn(p, s0, steps + [Fsync], s1, RewriteHeader,
          Sys(DoHeader(p, s1.store), if s.phase.t.ToIdle? then Idle else Down, s.log));
  }

  // ----- closing -----

  lemma CloseIsRun(p: Params, s: Sys)
    requires p.maxFile > 0 && p.checkpoint > 0 && s.phase.Idle?
    ensures Run(p, s, [BeginClose] + [Fsync] + [RewriteHeader])
         == Some(Sys(DoHeader(p, DoSync(p, s.store)), Down, s.log))
  {
    hide Run, DoSync, DoHeader;
    NoSteps(p, s);
    RunOn(p, s, [], s, BeginClose, s.(phase := Persist(ToDown)));
    assert [] + [BeginClose] == [BeginClose];
    PersistRun(p, s, [BeginClose], s.(phase := Persist(ToDown)));
  }

  // ----- opening -----

  /** The recovery loop, turn by turn. */
  lemma {:induction false} ScanIsRun(p: Params, s0: Sys, steps: seq<Step>, s: Sys) returns (more: seq<Step>)
    requires p.maxFile > 0 && p.checkpoint > 0 && Run(p, s0, steps) == Some(s) && s.phase.Scanning?
    ensures var (r, d) := Scan(p, s.store.disk, s.phase.c, s.phase.end);
            Run(p, s0, more)
            == Some(s.(store := s.store.(disk := d),
                       phase := if r.Ok? then Scanning(r.value, s.phase.end) else Failed(r.error)))
    decreases s.phase.end as int - s.phase.c.scan as int
  {
    hide Run, ScanStep;
    if s.phase.c.scan >= s.phase.end {
      more := steps;
    } else {
      var (r, d) := ScanStep(p, s.store.disk, s.phase.c, s.phase.end);
      var s' := s.(store := s.store.(disk := d),
                   phase := if r.Ok? then Scanning(r.value, s.phase.end) else Failed(r.error));
      RunOn(p, s0, steps, s, ScanOne, s');
      more := steps + [ScanOne];
      if r.Ok? { more := ScanIsRun(p, s0, more, s'); }
    }
  }

  lemma {:induction false} ScanEndsAt(p: Params, d: Disk, c: Cursor, end: u64)
    requires p.maxFile > 0
    ensures Scan(p, d, c, end).0.Ok? ==> Scan(p, d, c, end).0.value.scan >= end
    decreases end as int - c.scan as int
  {
    hide ScanStep;
    if c.scan < end {
      var (r, d') := ScanStep(p, d, c, end);
      if r.Ok? { ScanEndsAt(p, d', r.value, end); }
    }
  }

  /** The steps behind a finished scan. */
  lemma FinishIsRun(p: Params, s0: Sys, steps: seq<Step>, s: Sys)
    requires p.maxFile > 0 && p.checkpoint > 0 && Run(p, s0, steps) == Some(s)
    requires s.phase.Scanning? && s.phase.c.scan >= s.phase.end
    ensures var max := Merge(s.store.live.maxHeight, s.phase.c);
            var d := s.store.disk.(index := PersistHeader(p, s.store.disk.index, s.phase.c.scan, max));
            Run(p, s0, steps + [ScanDone] + [Fsync] + [RewriteHeader])
            == Some(Sys(Store(d, Live(s.phase.c.scan, max)), Idle, s.log))
  {
    hide Run, Merge;
    var live := Live(s.phase.c.scan, Merge(s.store.live.maxHeight, s.phase.c));
    var s1 := s.(store := s.store.(live := live), phase := Persist(ToIdle));
    RunOn(p, s0, steps, s, ScanDone, s1);
    PersistRun(p, s0, steps + [ScanDone], s1);
  }

  /** Opening a store is a run that ends idle, with the state that opening returns, or failed with its error. */
  lemma OpenIsRun(p: Params, s: Sys) returns (steps: seq<Step>)
    requires p.maxFile > 0 && p.checkpoint > 0 && s.phase.Down?
    ensures var (r, d) := Open(p, s.store.disk);
            && Run(p, s, steps).Some?
            && var end := Run(p, s, steps).value;
               && end.store.disk == d && end.log == s.log
               && match r
                  case Ok(live) => end.phase.Idle? && end.store.live == live
                  case Err(e) => end.phase == Failed(e)
  {
    hide Run, Scan, LoadHeader, DataEnd, Merge, PersistHeader;
    var (r, d) := LoadHeader(p, s.store.disk);
    LoadKeeps(p, s.store.disk);
    var s1 := ApplyOpen(p, s).value;
    NoSteps(p, s);
    RunOn(p, s, [], s, OpenLoad, s1);
    steps := [] + [OpenLoad];
    if s1.phase.Scanning? {
      var c, end := s1.phase.c, s1.phase.end;
      ScanEndsAt(p, d, c, end);
      steps := ScanIsRun(p, s, steps, s1);
      var s2 := Run(p, s, steps).value;
      if s2.phase.Scanning? {
        FinishIsRun(p, s, steps, s2);
        steps := steps + [ScanDone] + [Fsync] + [RewriteHeader];
      }
    }
  }

  lemma LoadKeeps(p: Params, d: Disk)
    ensures LoadHeader(p, d).0.Err? ==> LoadHeader(p, d).1 == d
  {
  }
}
