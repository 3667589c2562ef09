/** Runs written out: opening an empty store, a first put, a second one, and what they leave on the disk. */
module BlockRuns {
  import opened Bytes
  import opened BlockFormat
  import opened BlockIndex
  import opened DataFiles
  import opened BlockLog
  import opened Recovery
  import opened BlockStore
  import opened BlockCrash

  lemma RunMore(p: Params, steps: seq<Step>, s: Sys, step: Step, s': Sys)
    requires p.maxFile > 0 && p.checkpoint > 0 && Run(p, Empty, steps) == Some(s) && Apply(p, s, step) == Some(s')
    ensures Run(p, Empty, steps + [step]) == Some(s')
  {
    assert (steps + [step])[..|steps|] == steps;
  }

  // ----- a first put -----

  function OpenAndReserve(r: Rec): seq<Step> {
    [OpenLoad] + [Begin(r)]
  }

  function FirstHeader(p: Params): Write {
    HeaderWrite(IndexFileHeader(INDEX_FILE_VERSION, p.maxFile, p.minHeight, UNSET_HEIGHT, 0))
  }

  /** The first block goes to the start of the first file. */
  lemma FirstPlace(p: Params, r: Rec)
    requires p.maxFile > 0 && InRange(p, r)
    ensures AllocateBlockSpace(0, |Frame(p, r)|, p.maxFile) == Ok((0, |Frame(p, r)|))
    ensures Place(0, |Frame(p, r)|, p.maxFile) == 0 && CheckPut(p, r) == Ok(|Frame(p, r)|)
  {
    AllocateIsLeastFit(0, |Frame(p, r)|, p.maxFile);
    JoinSplit(0, 0, p.maxFile);
  }

  lemma ReserveRun(p: Params, r: Rec) returns (s: Sys)
    requires p.maxFile > 0 && p.checkpoint > 0 && InRange(p, r)
    ensures Run(p, Empty, OpenAndReserve(r)) == Some(s)
    ensures s == Sys(Store(Disk(IndexFile([], [FirstHeader(p)]), map[]), Live(|Frame(p, r)|, UNSET_HEIGHT)),
                     Reserved(0, r), [])
  {
    hide AllocateBlockSpace, CheckPut, Frame;
    var s1 := Sys(Store(Disk(IndexFile([], [FirstHeader(p)]), map[]), Live(0, UNSET_HEIGHT)), Idle, []);
    assert [] + [FirstHeader(p)] == [FirstHeader(p)];
    assert Apply(p, Empty, OpenLoad) == Some(s1);
    RunMore(p, [], Empty, OpenLoad, s1);
    assert [] + [OpenLoad] == [OpenLoad];
    FirstPlace(p, r);
    s := s1.(store := s1.store.(live := Live(|Frame(p, r)|, UNSET_HEIGHT)), phase := Reserved(0, r));
    assert Apply(p, s1, Begin(r)) == Some(s);
    RunMore(p, [OpenLoad], s1, Begin(r), s);
  }

  /** The layout of one block. */
  lemma OneBlock(p: Params, r: Rec)
    requires Lawful(p) && GoodRec(p, r)
    ensures GoodLog(p, []) && EndOf(p, []) == 0 && FilesOf(p, []) == map[]
    ensures GoodLog(p, [r]) && OffsetOf(p, [r], 0) == 0 && EndOf(p, [r]) == |Frame(p, r)|
  {
    assert GoodLog(p, []) && EndOf(p, []) == 0;
    assert [] + [r] == [r];
    FirstPlace(p, r);
    AllocateGood(p, [], r, 0);
  }

  function WriteSteps(r: Rec): seq<Step> {
    OpenAndReserve(r) + [WriteBlock] + [WriteSlot]
  }

  /** The index writes of opening an empty store, putting one block and rewriting the header, none of them synced. */
  ghost function PutWrites(p: Params, r: Rec): seq<Write>
    requires GoodLog(p, [r])
  {
    [FirstHeader(p), SlotWriteOf(p, [r], 0),
     HeaderWrite(IndexFileHeader(INDEX_FILE_VERSION, p.maxFile, p.minHeight, r.height, EndOf(p, [r])))]
  }

  lemma WriteRun(p: Params, r: Rec) returns (s: Sys)
    requires GoodLog(p, [r])
    ensures Run(p, Empty, WriteSteps(r)) == Some(s)
    ensures s == Sys(Store(Disk(IndexFile([], PutWrites(p, r)[..2]), FilesOf(p, [r])),
                           Live(EndOf(p, [r]), UNSET_HEIGHT)),
                     SlotDone(r), [r])
  {
    hide Run, EndOf, OffsetOf, FilesOf, WriteData, HeaderWrite, SlotWrite;
    var steps, ws, live := OpenAndReserve(r), PutWrites(p, r), Live(EndOf(p, [r]), UNSET_HEIGHT);
    assert [] + [r] == [r] && [r][0] == r;
    OneBlock(p, r);
    var s1 := ReserveRun(p, r);
    DataGood(p, [], r);
    assert ws[..1] == [ws[0]] && ws[..2] == ws[..1] + [ws[1]];
    var s2 := Sys(Store(Disk(IndexFile([], ws[..1]), FilesOf(p, [r])), live), DataDone(0, r), [r]);
    RunMore(p, steps, s1, WriteBlock, s2);
    s := Sys(Store(Disk(IndexFile([], ws[..2]), FilesOf(p, [r])), live), SlotDone(r), [r]);
    RunMore(p, steps + [WriteBlock], s2, WriteSlot, s);
  }

  // ----- until the header is rewritten -----

  /** A put at a height that is no checkpoint rewrites the header when the store is closed. */
  function PutSteps(p: Params, r: Rec): seq<Step>
    requires p.checkpoint > 0
  {
    WriteSteps(r) + [RaiseMax] + (if r.height % p.checkpoint == 0 then [] else [BeginClose]) + [Fsync] + [RewriteHeader]
  }

  lemma RaiseRun(p: Params, r: Rec) returns (t: After)
    requires GoodLog(p, [r])
    ensures Run(p, Empty, WriteSteps(r) + [RaiseMax] + (if r.height % p.checkpoint == 0 then [] else [BeginClose]))
         == Some(Sys(Store(Disk(IndexFile([], PutWrites(p, r)[..2]), FilesOf(p, [r])), Live(EndOf(p, [r]), r.height)),
                     Persist(t), [r]))
  {
    hide Run, EndOf, FilesOf, SlotWriteOf, HeaderWrite, WriteSteps;
    var steps, live := WriteSteps(r), Live(EndOf(p, [r]), r.height);
    var s3 := WriteRun(p, r);
    if r.height % p.checkpoint == 0 {
      var s4 := Sys(Store(s3.store.disk, live), Persist(ToIdle), [r]);
      RunMore(p, steps, s3, RaiseMax, s4);
      assert steps + [RaiseMax] + [] == steps + [RaiseMax];
      t := ToIdle;
    } else {
      var s4 := Sys(Store(s3.store.disk, live), Idle, [r]);
      RunMore(p, steps, s3, RaiseMax, s4);
      RunMore(p, steps + [RaiseMax], s4, BeginClose, s4.(phase := Persist(ToDown)));
      t := ToDown;
    }
  }

  lemma PutRun(p: Params, r: Rec) returns (s: Sys)
    requires GoodLog(p, [r]) && !p.sync
    ensures Run(p, Empty, PutSteps(p, r)) == Some(s) && s.log == [r]
    ensures s.store.disk == Disk(IndexFile([], PutWrites(p, r)), FilesOf(p, [r]))
  {
    hide Run, EndOf, FilesOf, HeaderWrite;
    var ws, live := PutWrites(p, r), Live(EndOf(p, [r]), r.height);
    var steps := WriteSteps(r) + [RaiseMax] + (if r.height % p.checkpoint == 0 then [] else [BeginClose]);
    var t := RaiseRun(p, r);
    var s4 := Sys(Store(Disk(IndexFile([], ws[..2]), FilesOf(p, [r])), live), Persist(t), [r]);
    var s5 := s4.(phase := PersistSynced(t));
    RunMore(p, steps, s4, Fsync, s5);
    assert ws == ws[..2] + [ws[2]];
    s := Sys(Store(Disk(IndexFile([], ws), FilesOf(p, [r])), live), if t.ToIdle? then Idle else Down, [r]);
    RunMore(p, steps + [Fsync], s5, RewriteHeader, s);
  }

  // ----- a second put -----

  /** One block stored, and space reserved for another. */
  function TwoSteps(r: Rec, next: Rec): seq<Step> {
    WriteSteps(r) + [RaiseMax] + [Begin(next)]
  }

  lemma TwoRun(p: Params, r: Rec, next: Rec) returns (s: Sys)
    requires GoodLog(p, [r]) && GoodLog(p, [r] + [next]) && r.height % p.checkpoint != 0
    ensures Run(p, Empty, TwoSteps(r, next)) == Some(s) && s.log == [r]
    ensures s.phase == Reserved(OffsetOf(p, [r] + [next], 1), next) && s.store.disk.files == FilesOf(p, [r])
  {
    hide Run, EndOf, FilesOf, OffsetOf, AllocateBlockSpace;
    var live := Live(EndOf(p, [r]), r.height);
    var s3 := WriteRun(p, r);
    var s4 := Sys(Store(s3.store.disk, live), Idle, [r]);
    RunMore(p, WriteSteps(r), s3, RaiseMax, s4);
    assert GoodRec(p, ([r] + [next])[1]);
    AllocateGood(p, [r], next, live.next);
    s := s4.(store := s4.store.(live := live.(next := EndOf(p, [r] + [next]))),
             phase := Reserved(OffsetOf(p, [r] + [next], 1), next));
    RunMore(p, WriteSteps(r) + [RaiseMax], s4, Begin(next), s);
  }
}
