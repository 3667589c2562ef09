/** Crash consistency. The machine below interleaves the steps of opens, puts, checkpoints and closes
    with process crashes and power failures; a power failure keeps any subset of the index writes
    issued since the last fsync, while a data write is durable when it returns. */
module BlockCrash {
  import opened Bytes
  import opened BlockFormat
  import opened BlockIndex
  import opened DataFiles
  import opened BlockLog
  import opened Recovery
  import opened BlockStore

  datatype After = ToIdle | ToDown

  datatype Phase =
    | Down                          // no process has the store open
    | Failed(e: Error)              // an open returned this error
    | Scanning(c: Cursor, end: u64) // in the recovery loop
    | Idle
    | Reserved(off: u64, r: Rec)    // put: space reserved
    | DataDone(off: u64, r: Rec)    // put: data written
    | SlotDone(r: Rec)              // put: index slot written
    | Persist(t: After)             // about to fsync the index, then rewrite the header
    | PersistSynced(t: After)       // index fsynced, header not yet rewritten

  /** log is a history variable: the blocks whose data write completed, in order. */
  datatype Sys = Sys(store: Store, phase: Phase, log: seq<Rec>)

  datatype Step =
    | OpenLoad
    | ScanOne
    | ScanDone
    | Begin(r: Rec)
    | WriteBlock
    | WriteSlot
    | RaiseMax
    | Fsync
    | RewriteHeader
    | BeginClose
    | ProcessCrash
    | PowerFailure(keep: seq<bool>)

  /** The first header write reached the disk, or nothing written after it did. */
  predicate HeaderSafe(f: IndexFile, keep: seq<bool>)
    requires |keep| == |f.pending|
  {
    f.durable != [] || Kept(f.pending, keep) == [] || keep[0]
  }

  ghost function StartRecovery(p: Params, d: Disk, live: Live): Phase {
    if d.files == map[] then Idle
    else
      match DataEnd(p, d.files)
      case Err(e) => Failed(e)
      case Ok(end) =>
        if end == live.next then Idle
        else if end < live.next then Failed(Corrupted)
        else Scanning(Cursor(live.next, 0, 0), end)
  }

  ghost function ApplyOpen(p: Params, s: Sys): Option<Sys> {
    if !s.phase.Down? then None
    else
      var (r, d) := LoadHeader(p, s.store.disk);
      match r
      case Err(e) => Some(s.(phase := Failed(e)))
      case Ok(live) => Some(s.(store := Store(d, live), phase := StartRecovery(p, d, live)))
  }

  function ApplyScan(p: Params, s: Sys): Option<Sys>
    requires p.maxFile > 0
  {
    if !s.phase.Scanning? || s.phase.c.scan >= s.phase.end then None
    else
      var (r, d) := ScanStep(p, s.store.disk, s.phase.c, s.phase.end);
      Some(s.(store := s.store.(disk := d),
              phase := if r.Ok? then Scanning(r.value, s.phase.end) else Failed(r.error)))
  }

  function ApplyScanDone(s: Sys): Option<Sys> {
    if !s.phase.Scanning? || s.phase.c.scan < s.phase.end then None
    else
      var live := Live(s.phase.c.scan, Merge(s.store.live.maxHeight, s.phase.c));
      Some(s.(store := s.store.(live := live), phase := Persist(ToIdle)))
  }

  /** A put that fails its checks or finds no space changes nothing and takes no step. */
  function ApplyBegin(p: Params, s: Sys, r: Rec): Option<Sys> {
    if !s.phase.Idle? || CheckPut(p, r).Err? then None
    else
      match DoAllocate(p, s.store, CheckPut(p, r).value)
      case Err(_) => None
      case Ok((off, s')) => Some(s.(store := s', phase := Reserved(off, r)))
  }

  function ApplyData(p: Params, s: Sys): Option<Sys>
    requires p.maxFile > 0
  {
    if !s.phase.Reserved? || CheckPut(p, s.phase.r).Err? then None
    else Some(Sys(DoData(p, s.store, s.phase.off, s.phase.r), DataDone(s.phase.off, s.phase.r), s.log + [s.phase.r]))
  }

  function ApplySlot(p: Params, s: Sys): Option<Sys> {
    if !s.phase.DataDone? || CheckPut(p, s.phase.r).Err? then None
    else Some(s.(store := DoSlot(p, s.store, s.phase.off, s.phase.r), phase := SlotDone(s.phase.r)))
  }

  function ApplyRaise(p: Params, s: Sys): Option<Sys>
    requires p.checkpoint > 0
  {
    if !s.phase.SlotDone? then None
    else
      var h := s.phase.r.height;
      Some(s.(store := DoRaise(s.store, h), phase := if h % p.checkpoint == 0 then Persist(ToIdle) else Idle))
  }

  function ApplyFsync(p: Params, s: Sys): Option<Sys> {
    if !s.phase.Persist? then None
    else Some(s.(store := DoSync(p, s.store), phase := PersistSynced(s.phase.t)))
  }

  function ApplyHeader(p: Params, s: Sys): Option<Sys> {
    if !s.phase.PersistSynced? then None
    else Some(s.(store := DoHeader(p, s.store), phase := if s.phase.t.ToIdle? then Idle else Down))
  }

  function ApplyPowerFailure(s: Sys, keep: seq<bool>): Option<Sys> {
    var f := s.store.disk.index;
    if |keep| != |f.pending| then None
    else Some(s.(store := s.store.(disk := s.store.disk.(index := f.PowerLoss(keep))), phase := Down))
  }

  ghost function Apply(p: Params, s: Sys, step: Step): Option<Sys>
    requires p.maxFile > 0 && p.checkpoint > 0
  {
    match step
    case OpenLoad => ApplyOpen(p, s)
    case ScanOne => ApplyScan(p, s)
    case ScanDone => ApplyScanDone(s)
    case Begin(r) => ApplyBegin(p, s, r)
    case WriteBlock => ApplyData(p, s)
    case WriteSlot => ApplySlot(p, s)
    case RaiseMax => ApplyRaise(p, s)
    case Fsync => ApplyFsync(p, s)
    case RewriteHeader => ApplyHeader(p, s)
    case BeginClose => if s.phase.Idle? then Some(s.(phase := Persist(ToDown))) else None
    case ProcessCrash => Some(s.(phase := Down))
    case PowerFailure(keep) => ApplyPowerFailure(s, keep)
  }

  /** The state after a run, if every step of it was enabled. */
  ghost function Run(p: Params, s: Sys, steps: seq<Step>): Option<Sys>
    requires p.maxFile > 0 && p.checkpoint > 0
  {
    if steps == [] then Some(s)
    else
      match Run(p, s, steps[..|steps| - 1])
      case None => None
      case Some(s') => Apply(p, s', steps[|steps| - 1])
  }

  const Empty: Sys := Sys(Store(Disk(IndexFile([], []), map[]), Live(0, UNSET_HEIGHT)), Down, [])

  // ----- what is known about the index file at every step -----

  /** Where the durable header and the visible header stand in the history, and whether the first
      pending write is a header write. */
  datatype Wit = Wit(k0: nat, k1: nat, hdr: bool)

  ghost predicate SlotWriteSince(p: Params, log: seq<Rec>, k: nat, w: Write)
    requires GoodLog(p, log)
  {
    exists i :: k <= i < |log| && w == SlotWriteOf(p, log, i)
  }

  function Tail(f: IndexFile, hdr: bool): seq<Write>
    requires hdr ==> f.pending != []
  {
    if hdr then f.pending[1..] else f.pending
  }

  ghost predicate IndexInv(p: Params, f: IndexFile, log: seq<Rec>, w: Wit)
    requires GoodLog(p, log)
  {
    && w.k0 <= w.k1 <= |log|
    && (!w.hdr ==> w.k0 == w.k1)
    && (w.hdr ==> f.pending != [] && f.pending[0] == HeaderWrite(HeaderAt(p, log, w.k1)))
    && (forall x :: x in Tail(f, w.hdr) ==> SlotWriteSince(p, log, w.k1, x))
    && (if f.durable == [] then w.k1 == 0 && (!w.hdr ==> f.pending == [])
        else ReadHeader(f.durable) == Ok(HeaderAt(p, log, w.k0)) && SlotsSince(p, f.durable, log, w.k1))
  }

  ghost predicate Covers(p: Params, b: bytes, log: seq<Rec>, k: nat, since: nat)
    requires GoodLog(p, log) && k <= |log|
  {
    ReadHeader(b) == Ok(HeaderAt(p, log, k)) && SlotsSince(p, b, log, since)
  }

  lemma {:induction false} ApplySlots(p: Params, b: bytes, log: seq<Rec>, k: nat, since: nat, ws: seq<Write>)
    requires GoodLog(p, log) && k <= |log| && Covers(p, b, log, k, since)
    requires forall x :: x in ws ==> SlotWriteSince(p, log, since, x)
    ensures Covers(p, ApplyWrites(b, ws), log, k, since)
  {
    if ws != [] {
      var n := |ws| - 1;
      ApplySlots(p, b, log, k, since, ws[..n]);
      assert ws[n] in ws;
      var i :| since <= i < |log| && ws[n] == SlotWriteOf(p, log, i);
      SlotWriteKeeps(p, ApplyWrites(b, ws[..n]), log, since, i);
    }
  }

  lemma {:induction false} ApplyFirst(b: bytes, w: Write, ws: seq<Write>)
    ensures ApplyWrites(b, [w] + ws) == ApplyWrites(Do(b, w), ws)
  {
    if ws == [] {
      assert [w] + ws == [w];
    } else {
      var n := |ws| - 1;
      ApplyFirst(b, w, ws[..n]);
      assert ([w] + ws)[..n + 1] == [w] + ws[..n];
    }
  }

  /** Writing the pending header first, over whatever is durable. */
  lemma HeaderFirst(p: Params, f: IndexFile, log: seq<Rec>, w: Wit)
    requires GoodLog(p, log) && IndexInv(p, f, log, w) && w.hdr
    ensures Covers(p, Do(f.durable, f.pending[0]), log, w.k1, w.k1)
  {
    if f.durable == [] {
      FreshIndex(p, log);
    } else {
      HeaderWriteKeeps(p, f.durable, log, w.k1, HeaderAt(p, log, w.k1));
    }
  }

  /** Whatever subset of the pending writes is applied, the file covers a prefix that is indexed. */
  lemma Survivors(p: Params, f: IndexFile, log: seq<Rec>, w: Wit, withHeader: bool, rest: seq<Write>)
    requires GoodLog(p, log) && IndexInv(p, f, log, w)
    requires withHeader ==> w.hdr
    requires f.durable != [] || withHeader
    requires forall x :: x in rest ==> x in Tail(f, w.hdr)
    ensures Covers(p, ApplyWrites(f.durable, (if withHeader then [f.pending[0]] else []) + rest), log,
                   if withHeader then w.k1 else w.k0, w.k1)
  {
    hide GoodLog, SlotsSince, SlotWriteSince, ReadHeader, HeaderAt, WriteAt, ApplyWrites;
    forall x | x in rest ensures SlotWriteSince(p, log, w.k1, x) {
      assert x in Tail(f, w.hdr);
    }
    if withHeader {
      HeaderFirst(p, f, log, w);
      ApplyFirst(f.durable, f.pending[0], rest);
      ApplySlots(p, Do(f.durable, f.pending[0]), log, w.k1, w.k1, rest);
    } else {
      assert [] + rest == rest;
      ApplySlots(p, f.durable, log, w.k0, w.k1, rest);
    }
  }

  ghost predicate Blank(f: IndexFile) {
    f.durable == [] && f.pending == []
  }

  function VisibleAt(w: Wit): nat {
    if w.hdr then w.k1 else w.k0
  }

  /** What an open reads: nothing at all, or a header that covers an indexed prefix. */
  lemma VisibleCovers(p: Params, f: IndexFile, log: seq<Rec>, w: Wit)
    requires GoodLog(p, log) && IndexInv(p, f, log, w)
    ensures Blank(f) ==> f.Visible() == []
    ensures !Blank(f) ==> f.Visible() != [] && Covers(p, f.Visible(), log, VisibleAt(w), w.k1)
  {
    hide GoodLog, SlotsSince, SlotWriteSince, HeaderAt, UnmarshalIndexFileHeader;
    if !Blank(f) {
      assert f.pending == (if w.hdr then [f.pending[0]] else []) + Tail(f, w.hdr);
      Survivors(p, f, log, w, w.hdr, Tail(f, w.hdr));
      assert Covers(p, f.Visible(), log, VisibleAt(w), w.k1);
    }
  }

  lemma {:induction false} KeptFirst(ws: seq<Write>, keep: seq<bool>)
    requires |ws| == |keep| && ws != []
    ensures Kept(ws, keep) == (if keep[0] then [ws[0]] else []) + Kept(ws[1..], keep[1..])
  {
    var n := |ws| - 1;
    if n > 0 {
      KeptFirst(ws[..n], keep[..n]);
      assert ws[..n][1..] == ws[1..][..n - 1] && keep[..n][1..] == keep[1..][..n - 1];
    }
  }

  /** A file with nothing pending that covers an indexed prefix. */
  lemma CleanIndex(p: Params, b: bytes, log: seq<Rec>, k: nat, since: nat)
    requires GoodLog(p, log) && k <= since <= |log| && Covers(p, b, log, k, since)
    ensures IndexInv(p, IndexFile(b, []), log, Wit(k, k, false))
  {
    hide SlotsSince, HeaderAt, UnmarshalIndexFileHeader;
    SlotsWeaken(p, b, log, since, k);
  }

  lemma NothingKept(p: Params, f: IndexFile, log: seq<Rec>, w: Wit, keep: seq<bool>)
    requires GoodLog(p, log) && IndexInv(p, f, log, w) && f.durable == []
    requires |keep| == |f.pending| && HeaderSafe(f, keep) && !(w.hdr && keep[0])
    ensures f.PowerLoss(keep) == IndexFile([], []) && IndexInv(p, f.PowerLoss(keep), log, Wit(0, 0, false))
  {
    hide SlotsSince, SlotWriteSince, ReadHeader, HeaderAt, WriteAt;
    if w.hdr { KeptFirst(f.pending, keep); }
  }

  /** A power failure leaves the index in a state of the same kind. */
  lemma PowerFailureKeeps(p: Params, f: IndexFile, log: seq<Rec>, w: Wit, keep: seq<bool>) returns (w': Wit)
    requires GoodLog(p, log) && IndexInv(p, f, log, w)
    requires |keep| == |f.pending| && HeaderSafe(f, keep)
    ensures IndexInv(p, f.PowerLoss(keep), log, w')
  {
    var withHeader := w.hdr && keep[0];
    var k := if withHeader then w.k1 else w.k0;
    assert k <= w.k1 <= |log|;
    hide GoodLog, SlotsSince, SlotWriteSince, Covers, ReadHeader, HeaderAt, WriteAt, ApplyWrites, Kept;
    if f.durable == [] && !withHeader {
      NothingKept(p, f, log, w, keep);
      return Wit(0, 0, false);
    }
    var kept := Kept(f.pending, keep);
    var rest := if w.hdr then Kept(f.pending[1..], keep[1..]) else kept;
    if w.hdr { KeptFirst(f.pending, keep); }
    assert kept == (if withHeader then [f.pending[0]] else []) + rest;
    Survivors(p, f, log, w, withHeader, rest);
    CleanIndex(p, ApplyWrites(f.durable, kept), log, k, w.k1);
    return Wit(k, k, false);
  }

  /** One more block in the history. */
  lemma IndexExtend(p: Params, f: IndexFile, log: seq<Rec>, w: Wit, r: Rec)
    requires GoodLog(p, log) && GoodLog(p, log + [r]) && IndexInv(p, f, log, w)
    ensures IndexInv(p, f, log + [r], w)
  {
    HeaderExtend(p, log, r, w.k0);
    HeaderExtend(p, log, r, w.k1);
    forall x | x in Tail(f, w.hdr) ensures SlotWriteSince(p, log + [r], w.k1, x) {
      var i :| w.k1 <= i < |log| && x == SlotWriteOf(p, log, i);
      SlotWriteExtend(p, log, r, i);
      assert w.k1 <= i < |log + [r]| && x == SlotWriteOf(p, log + [r], i);
    }
    if f.durable != [] { SlotsExtend(p, f.durable, log, r, w.k1); }
  }

  lemma TailAppend(f: IndexFile, hdr: bool, x: Write)
    requires hdr ==> f.pending != []
    ensures forall y :: y in Tail(f.Append(x), hdr) ==> y in Tail(f, hdr) || y == x
    ensures f.Append(x).durable == f.durable && f.Append(x).pending != []
    ensures hdr ==> f.Append(x).pending[0] == f.pending[0]
  {
    assert Tail(f.Append(x), hdr) == Tail(f, hdr) + [x];
  }

  lemma IndexSlotRaw(p: Params, f: IndexFile, log: seq<Rec>, w: Wit, x: Write)
    requires GoodLog(p, log) && IndexInv(p, f, log, w) && !Blank(f) && SlotWriteSince(p, log, w.k1, x)
    ensures IndexInv(p, f.Append(x), log, w)
  {
    TailAppend(f, w.hdr, x);
    forall y | y in Tail(f.Append(x), w.hdr) ensures SlotWriteSince(p, log, w.k1, y) {
      if y != x { assert y in Tail(f, w.hdr); }
    }
  }

  /** A slot write of a block the visible header does not cover yet. */
  lemma IndexSlot(p: Params, f: IndexFile, log: seq<Rec>, w: Wit, i: nat)
    requires GoodLog(p, log) && IndexInv(p, f, log, w) && !Blank(f) && w.k1 <= i < |log|
    ensures IndexInv(p, f.Append(SlotWriteOf(p, log, i)), log, w)
  {
    IndexSlotRaw(p, f, log, w, SlotWriteOf(p, log, i));
  }

  lemma IndexSync(p: Params, f: IndexFile, log: seq<Rec>, w: Wit) returns (w': Wit)
    requires GoodLog(p, log) && IndexInv(p, f, log, w) && !Blank(f)
    ensures IndexInv(p, f.Sync(), log, w') && !Blank(f.Sync())
  {
    VisibleCovers(p, f, log, w);
    var k := VisibleAt(w);
    SlotsWeaken(p, f.Visible(), log, w.k1, k);
    return Wit(k, k, false);
  }

  /** A header write over a fsynced, fully indexed file. */
  lemma IndexHeader(p: Params, f: IndexFile, log: seq<Rec>, w: Wit) returns (w': Wit)
    requires GoodLog(p, log) && IndexInv(p, f, log, w) && !Blank(f) && f.pending == []
    requires SlotsSince(p, f.Visible(), log, |log|)
    ensures IndexInv(p, f.Append(HeaderWrite(HeaderAt(p, log, |log|))), log, w')
  {
    return Wit(w.k0, |log|, true);
  }

  lemma IndexInit(p: Params, f: IndexFile, log: seq<Rec>)
    requires GoodLog(p, log) && Blank(f)
    ensures IndexInv(p, f.Append(HeaderWrite(HeaderAt(p, log, 0))), log, Wit(0, 0, true))
  {
  }

  // ----- the invariant of the machine -----

  ghost predicate Settled(p: Params, store: Store, log: seq<Rec>)
    requires GoodLog(p, log)
  {
    && !Blank(store.disk.index)
    && store.live == Live(EndOf(p, log), MaxOf(log))
    && SlotsSince(p, store.disk.index.Visible(), log, |log|)
  }

  /** The recovery loop has indexed the blocks before i. */
  ghost predicate ScanInv(p: Params, store: Store, log: seq<Rec>, k: nat, c: Cursor, i: nat)
    requires GoodLog(p, log) && k <= |log|
  {
    && k <= i && ScanPos(p, log, i, c.scan)
    && SlotsSince(p, store.disk.index.Visible(), log, i)
    && Merge(store.live.maxHeight, c) == MaxOf(log[..i])
    && c.maxRec != UNSET_HEIGHT && (c.num == 0 ==> c.maxRec == 0)
  }

  ghost predicate PhaseInv(p: Params, s: Sys, w: Wit)
    requires GoodLog(p, s.log) && w.k1 <= |s.log|
  {
    var log, index, live := s.log, s.store.disk.index, s.store.live;
    if s.phase.Idle? || s.phase.Persist? || s.phase.PersistSynced? then
      Settled(p, s.store, log) && (s.phase.PersistSynced? ==> index.pending == [])
    else
    match s.phase
    case Down => true
    case Failed(_) => false
    case Scanning(c, end) =>
      !Blank(index) && end == EndOf(p, log) && exists i :: ScanInv(p, s.store, log, w.k1, c, i)
    case Reserved(off, r) =>
      && GoodLog(p, log + [r]) && off == OffsetOf(p, log + [r], |log|)
      && live == Live(EndOf(p, log + [r]), MaxOf(log))
      && !Blank(index) && SlotsSince(p, index.Visible(), log, |log|)
    case DataDone(off, r) =>
      && log != [] && log[|log| - 1] == r && w.k1 < |log| && off == OffsetOf(p, log, |log| - 1)
      && live == Live(EndOf(p, log), MaxOf(log[..|log| - 1]))
      && !Blank(index) && SlotsSince(p, index.Visible(), log, |log| - 1)
    case SlotDone(r) =>
      && log != [] && log[|log| - 1] == r
      && live == Live(EndOf(p, log), MaxOf(log[..|log| - 1]))
      && !Blank(index) && SlotsSince(p, index.Visible(), log, |log|)
  }

  ghost predicate Inv(p: Params, s: Sys, w: Wit) {
    && p.sync && GoodLog(p, s.log)
    && s.store.disk.files == FilesOf(p, s.log)
    && IndexInv(p, s.store.disk.index, s.log, w)
    && PhaseInv(p, s, w)
  }

  // ----- opening -----

  /** What an open finds: the header of the indexed prefix, freshly written if there was none. */
  lemma LoadGood(p: Params, d: Disk, log: seq<Rec>, w: Wit) returns (d': Disk, k: nat, w': Wit)
    requires GoodLog(p, log) && d.files == FilesOf(p, log) && IndexInv(p, d.index, log, w)
    ensures k <= |log| && GoodLog(p, log[..k])
    ensures LoadHeader(p, d) == (Ok(Live(EndOf(p, log[..k]), MaxOf(log[..k]))), d')
    ensures IndexInv(p, d'.index, log, w') && !Blank(d'.index) && w'.k1 == k
    ensures Recoverable(p, d', log, k)
  {
    VisibleCovers(p, d.index, log, w);
    if Blank(d.index) {
      GoodPrefix(p, log, 0);
      assert log[..0] == [];
      IndexInit(p, d.index, log);
      d' := LoadHeader(p, d).1;
      FreshIndex(p, log);
      return d', 0, Wit(0, 0, true);
    } else {
      GoodPrefix(p, log, w.k1);
      return d, w.k1, w;
    }
  }

  lemma StartGood(p: Params, d: Disk, log: seq<Rec>, k: nat)
    requires Recoverable(p, d, log, k) && GoodLog(p, log[..k])
    ensures StartRecovery(p, d, Live(EndOf(p, log[..k]), MaxOf(log[..k])))
         == if k == |log| then Idle else Scanning(Cursor(EndOf(p, log[..k]), 0, 0), EndOf(p, log))
  {
    EndOfStrict(p, log, k);
    if log != [] { DataEndGood(p, log); }
    if k == |log| { assert log[..k] == log; }
  }

  lemma StepOpen(p: Params, s: Sys, w: Wit) returns (s': Sys, w': Wit)
    requires Inv(p, s, w) && s.phase == Down
    ensures ApplyOpen(p, s) == Some(s') && Inv(p, s', w')
  {
    hide SlotsSince, FilesOf, EndOf, MaxOf, IndexInv, LoadHeader, DataEnd, ReadHeader, HeaderAt, Blank;
    var d', k, w1 := LoadGood(p, s.store.disk, s.log, w);
    w' := w1;
    StartGood(p, d', s.log, k);
    var live := Live(EndOf(p, s.log[..k]), MaxOf(s.log[..k]));
    s' := s.(store := Store(d', live), phase := StartRecovery(p, d', live));
    if k < |s.log| {
      assert ScanInv(p, s'.store, s.log, k, Cursor(live.next, 0, 0), k);
    } else {
      assert s.log[..k] == s.log;
    }
  }

  // ----- the recovery loop -----

  lemma ScanningInv(p: Params, st: Store, log: seq<Rec>, w: Wit, c: Cursor, i: nat)
    requires p.sync && GoodLog(p, log) && st.disk.files == FilesOf(p, log)
    requires IndexInv(p, st.disk.index, log, w) && !Blank(st.disk.index)
    requires ScanInv(p, st, log, w.k1, c, i)
    ensures Inv(p, Sys(st, Scanning(c, EndOf(p, log)), log), w)
  {
  }

  /** Skipping the unused tail of a file keeps the loop invariant. */
  lemma ScanInvSkips(p: Params, st: Store, log: seq<Rec>, k: nat, c: Cursor, i: nat)
    requires GoodLog(p, log) && k <= |log| && ScanInv(p, st, log, k, c, i) && i < |log|
    ensures ScanInv(p, st, log, k, c.(scan := OffsetOf(p, log, i)), i)
  {
  }

  lemma StepScanAtBlock(p: Params, s: Sys, w: Wit, c: Cursor, i: nat) returns (s': Sys)
    requires Inv(p, s, w) && s.phase == Scanning(c, EndOf(p, s.log))
    requires ScanInv(p, s.store, s.log, w.k1, c, i) && i < |s.log| && c.scan == OffsetOf(p, s.log, i)
    ensures ApplyScan(p, s) == Some(s') && Inv(p, s', w)
  {
    hide EndOf, FilesOf, OffsetOf, SlotsSince, SlotWriteOf, ScanStep, IndexInv, MaxOf, Merge;
    var log, d := s.log, s.store.disk;
    ScanStepAtBlock(p, d, log, i, c);
    var c' := Advance(c, EndOf(p, log[..i + 1]), log[i].height);
    var d' := d.(index := d.index.Append(SlotWriteOf(p, log, i)));
    IndexSlot(p, d.index, log, w, i);
    SlotWriteAdvances(p, d.index.Visible(), log, i);
    MergeNext(log, i, s.store.live.maxHeight, c, c');
    var st := Store(d', s.store.live);
    s' := Sys(st, Scanning(c', EndOf(p, log)), log);
    assert ScanInv(p, st, log, w.k1, c', i + 1);
    ScanningInv(p, st, log, w, c', i + 1);
  }

  lemma StepScanAtGap(p: Params, s: Sys, w: Wit, c: Cursor, i: nat) returns (s': Sys)
    requires Inv(p, s, w) && s.phase == Scanning(c, EndOf(p, s.log))
    requires ScanInv(p, s.store, s.log, w.k1, c, i) && i < |s.log| && c.scan != OffsetOf(p, s.log, i)
    ensures ApplyScan(p, s) == Some(s') && Inv(p, s', w)
  {
    ScanStepAtGap(p, s.store.disk, s.log, i, c);
    var c' := c.(scan := OffsetOf(p, s.log, i));
    s' := Sys(s.store, Scanning(c', EndOf(p, s.log)), s.log);
    ScanSkips(p, s, c, EndOf(p, s.log), c');
    ScanInvSkips(p, s.store, s.log, w.k1, c, i);
    ScanningInv(p, s.store, s.log, w, c', i);
  }

  lemma ScanSkips(p: Params, s: Sys, c: Cursor, end: u64, c': Cursor)
    requires p.maxFile > 0 && s.phase == Scanning(c, end) && c.scan < end
    requires ScanStep(p, s.store.disk, c, end) == (Ok(c'), s.store.disk)
    ensures ApplyScan(p, s) == Some(s.(phase := Scanning(c', end)))
  {
  }

  lemma ScanAtEnd(p: Params, store: Store, log: seq<Rec>, k: nat, c: Cursor, i: nat)
    requires GoodLog(p, log) && k <= |log| && ScanInv(p, store, log, k, c, i)
    ensures i == |log| <==> c.scan >= EndOf(p, log)
    ensures i == |log| ==> c.scan == EndOf(p, log) && Merge(store.live.maxHeight, c) == MaxOf(log)
  {
    if i == |log| {
      assert log[..i] == log;
    } else {
      EndOfStrict(p, log, i);
      EndsInside(p, log, i);
    }
  }

  lemma StepScan(p: Params, s: Sys, w: Wit, s': Sys)
    requires Inv(p, s, w) && ApplyScan(p, s) == Some(s')
    ensures Inv(p, s', w)
  {
    var c := s.phase.c;
    var i :| ScanInv(p, s.store, s.log, w.k1, c, i);
    ScanAtEnd(p, s.store, s.log, w.k1, c, i);
    if c.scan == OffsetOf(p, s.log, i) {
      var s1 := StepScanAtBlock(p, s, w, c, i);
    } else {
      var s1 := StepScanAtGap(p, s, w, c, i);
    }
  }

  lemma StepScanDone(p: Params, s: Sys, w: Wit, s': Sys)
    requires Inv(p, s, w) && ApplyScanDone(s) == Some(s')
    ensures Inv(p, s', w)
  {
    var i :| ScanInv(p, s.store, s.log, w.k1, s.phase.c, i);
    ScanAtEnd(p, s.store, s.log, w.k1, s.phase.c, i);
  }

  // ----- a put -----

  lemma CheckedIsGood(p: Params, r: Rec, next: u64)
    requires Lawful(p) && r.height != UNSET_HEIGHT && CheckPut(p, r).Ok?
    requires AllocateBlockSpace(next, CheckPut(p, r).value, p.maxFile).Ok?
    ensures GoodRec(p, r) && CheckPut(p, r).value == |Frame(p, r)|
  {
    AllocateTooLarge(next, CheckPut(p, r).value, p.maxFile);
  }

  lemma StepBegin(p: Params, s: Sys, w: Wit, r: Rec, s': Sys)
    requires Inv(p, s, w) && r.height != UNSET_HEIGHT && ApplyBegin(p, s, r) == Some(s')
    ensures Inv(p, s', w)
  {
    CheckedIsGood(p, r, s.store.live.next);
    AllocateGood(p, s.log, r, s.store.live.next);
  }

  lemma DataDoneInv(p: Params, st: Store, off: u64, r: Rec, log: seq<Rec>, w: Wit)
    requires p.sync && GoodLog(p, log) && st.disk.files == FilesOf(p, log)
    requires IndexInv(p, st.disk.index, log, w) && !Blank(st.disk.index) && w.k1 < |log|
    requires log[|log| - 1] == r && off == OffsetOf(p, log, |log| - 1)
    requires st.live == Live(EndOf(p, log), MaxOf(log[..|log| - 1]))
    requires SlotsSince(p, st.disk.index.Visible(), log, |log| - 1)
    ensures Inv(p, Sys(st, DataDone(off, r), log), w)
  {
    hide IndexInv, SlotsSince, FilesOf, EndOf, OffsetOf, MaxOf, Blank;
  }

  lemma DataStep(p: Params, s: Sys, off: u64, r: Rec, s': Sys)
    requires GoodLog(p, s.log) && GoodLog(p, s.log + [r]) && s.store.disk.files == FilesOf(p, s.log)
    requires s.phase == Reserved(off, r) && off == OffsetOf(p, s.log + [r], |s.log|) && ApplyData(p, s) == Some(s')
    ensures s' == Sys(Store(s.store.disk.(files := FilesOf(p, s.log + [r])), s.store.live),
                      DataDone(off, r), s.log + [r])
  {
    hide FilesOf, OffsetOf, WriteData;
    DataGood(p, s.log, r);
  }

  lemma DataLands(p: Params, f: IndexFile, log: seq<Rec>, w: Wit, r: Rec)
    requires GoodLog(p, log) && GoodLog(p, log + [r]) && IndexInv(p, f, log, w)
    requires SlotsSince(p, f.Visible(), log, |log|)
    ensures IndexInv(p, f, log + [r], w) && SlotsSince(p, f.Visible(), log + [r], |log|) && w.k1 < |log + [r]|
  {
    IndexExtend(p, f, log, w, r);
    SlotsExtend(p, f.Visible(), log, r, |log|);
  }

  lemma StepData(p: Params, s: Sys, w: Wit, s': Sys)
    requires Inv(p, s, w) && ApplyData(p, s) == Some(s')
    ensures Inv(p, s', w)
  {
    hide GoodLog, FilesOf, EndOf, OffsetOf, SlotsSince, IndexInv, MaxOf, Blank, DoData;
    var r, log := s.phase.r, s.log;
    DataStep(p, s, s.phase.off, r, s');
    DataLands(p, s.store.disk.index, log, w, r);
    assert (log + [r])[..|log|] == log;
    DataDoneInv(p, s'.store, s.phase.off, r, log + [r], w);
  }

  lemma SlotLands(p: Params, f: IndexFile, log: seq<Rec>, w: Wit)
    requires GoodLog(p, log) && log != [] && IndexInv(p, f, log, w) && !Blank(f) && w.k1 < |log|
    requires SlotsSince(p, f.Visible(), log, |log| - 1)
    ensures var f' := f.Append(SlotWriteOf(p, log, |log| - 1));
            IndexInv(p, f', log, w) && !Blank(f') && SlotsSince(p, f'.Visible(), log, |log|)
  {
    hide GoodLog, SlotsSince, SlotWriteOf, IndexInv;
    IndexSlot(p, f, log, w, |log| - 1);
    SlotWriteAdvances(p, f.Visible(), log, |log| - 1);
  }

  lemma SlotDoneInv(p: Params, st: Store, r: Rec, log: seq<Rec>, w: Wit)
    requires p.sync && GoodLog(p, log) && st.disk.files == FilesOf(p, log)
    requires IndexInv(p, st.disk.index, log, w) && !Blank(st.disk.index)
    requires log != [] && log[|log| - 1] == r && st.live == Live(EndOf(p, log), MaxOf(log[..|log| - 1]))
    requires SlotsSince(p, st.disk.index.Visible(), log, |log|)
    ensures Inv(p, Sys(st, SlotDone(r), log), w)
  {
  }

  lemma SlotStep(p: Params, s: Sys, off: u64, r: Rec)
    requires GoodLog(p, s.log) && s.log != [] && s.phase == DataDone(off, r)
    requires s.log[|s.log| - 1] == r && off == OffsetOf(p, s.log, |s.log| - 1)
    ensures ApplySlot(p, s)
         == var index := s.store.disk.index.Append(SlotWriteOf(p, s.log, |s.log| - 1));
            Some(Sys(Store(s.store.disk.(index := index), s.store.live), SlotDone(r), s.log))
  {
  }

  lemma StepSlot(p: Params, s: Sys, w: Wit) returns (s': Sys)
    requires Inv(p, s, w) && s.phase.DataDone?
    ensures ApplySlot(p, s) == Some(s') && Inv(p, s', w)
  {
    hide GoodLog, EndOf, FilesOf, OffsetOf, SlotsSince, SlotWriteOf, IndexInv, Blank, MaxOf;
    var f' := s.store.disk.index.Append(SlotWriteOf(p, s.log, |s.log| - 1));
    SlotLands(p, s.store.disk.index, s.log, w);
    var st := Store(s.store.disk.(index := f'), s.store.live);
    s' := Sys(st, SlotDone(s.phase.r), s.log);
    SlotStep(p, s, s.phase.off, s.phase.r);
    SlotDoneInv(p, st, s.phase.r, s.log, w);
  }

  /** A fully indexed store with exact counters satisfies the invariant in every settled phase. */
  lemma SettledInv(p: Params, st: Store, phase: Phase, log: seq<Rec>, w: Wit)
    requires p.sync && GoodLog(p, log) && st.disk.files == FilesOf(p, log)
    requires IndexInv(p, st.disk.index, log, w) && Settled(p, st, log)
    requires phase.Idle? || phase.Persist? || phase.Down? || (phase.PersistSynced? && st.disk.index.pending == [])
    ensures Inv(p, Sys(st, phase, log), w)
  {
  }

  lemma RaiseLive(st: Store, log: seq<Rec>, end: u64)
    requires log != [] && st.live == Live(end, MaxOf(log[..|log| - 1]))
    ensures DoRaise(st, log[|log| - 1].height) == Store(st.disk, Live(end, MaxOf(log)))
  {
  }

  lemma StepRaise(p: Params, s: Sys, w: Wit) returns (s': Sys)
    requires Inv(p, s, w) && s.phase.SlotDone?
    ensures ApplyRaise(p, s) == Some(s') && Inv(p, s', w)
  {
    RaiseLive(s.store, s.log, EndOf(p, s.log));
    var st := Store(s.store.disk, Live(EndOf(p, s.log), MaxOf(s.log)));
    var phase := if s.phase.r.height % p.checkpoint == 0 then Persist(ToIdle) else Idle;
    s' := Sys(st, phase, s.log);
    SettledInv(p, st, phase, s.log, w);
  }

  // ----- persisting the header -----

  lemma SyncSettled(p: Params, st: Store, log: seq<Rec>, w: Wit) returns (w': Wit)
    requires p.sync && GoodLog(p, log) && IndexInv(p, st.disk.index, log, w) && Settled(p, st, log)
    ensures Settled(p, DoSync(p, st), log) && IndexInv(p, DoSync(p, st).disk.index, log, w')
    ensures DoSync(p, st).disk.index.pending == [] && DoSync(p, st).disk.files == st.disk.files
  {
    w' := IndexSync(p, st.disk.index, log, w);
    assert DoSync(p, st).disk.index.Visible() == st.disk.index.Visible();
  }

  lemma StepFsync(p: Params, s: Sys, w: Wit) returns (s': Sys, w': Wit)
    requires Inv(p, s, w) && s.phase.Persist?
    ensures ApplyFsync(p, s) == Some(s') && Inv(p, s', w')
  {
    w' := SyncSettled(p, s.store, s.log, w);
    s' := Sys(DoSync(p, s.store), PersistSynced(s.phase.t), s.log);
    SettledInv(p, s'.store, s'.phase, s.log, w');
  }

  lemma HeaderSettled(p: Params, st: Store, log: seq<Rec>, w: Wit) returns (w': Wit)
    requires GoodLog(p, log) && IndexInv(p, st.disk.index, log, w) && Settled(p, st, log)
    requires st.disk.index.pending == []
    ensures Settled(p, DoHeader(p, st), log) && IndexInv(p, DoHeader(p, st).disk.index, log, w')
    ensures DoHeader(p, st).disk.files == st.disk.files
  {
    assert log[..|log|] == log;
    var index' := st.disk.index.Append(HeaderWrite(HeaderAt(p, log, |log|)));
    assert DoHeader(p, st) == st.(disk := st.disk.(index := index'));
    w' := IndexHeader(p, st.disk.index, log, w);
    HeaderWriteKeeps(p, st.disk.index.Visible(), log, |log|, HeaderAt(p, log, |log|));
  }

  lemma StepHeader(p: Params, s: Sys, w: Wit) returns (s': Sys, w': Wit)
    requires Inv(p, s, w) && s.phase.PersistSynced?
    ensures ApplyHeader(p, s) == Some(s') && Inv(p, s', w')
  {
    w' := HeaderSettled(p, s.store, s.log, w);
    s' := Sys(DoHeader(p, s.store), if s.phase.t.ToIdle? then Idle else Down, s.log);
    SettledInv(p, s'.store, s'.phase, s.log, w');
  }

  lemma StepClose(p: Params, s: Sys, w: Wit)
    requires Inv(p, s, w) && s.phase.Idle?
    ensures Inv(p, s.(phase := Persist(ToDown)), w)
  {
    hide IndexInv, Settled, FilesOf;
  }

  // ----- crashes -----

  lemma StepCrash(p: Params, s: Sys, w: Wit)
    requires Inv(p, s, w)
    ensures Inv(p, s.(phase := Down), w)
  {
    hide IndexInv, Settled, FilesOf, SlotsSince, ScanInv, EndOf, MaxOf;
  }

  lemma StepPower(p: Params, s: Sys, w: Wit, keep: seq<bool>) returns (w': Wit)
    requires Inv(p, s, w) && |keep| == |s.store.disk.index.pending| && HeaderSafe(s.store.disk.index, keep)
    ensures Inv(p, ApplyPowerFailure(s, keep).value, w')
  {
    hide IndexInv, Settled, FilesOf, SlotsSince, ScanInv, EndOf, MaxOf;
    w' := PowerFailureKeeps(p, s.store.disk.index, s.log, w, keep);
    IndexBounds(p, s.store.disk.index.PowerLoss(keep), s.log, w');
  }

  lemma IndexBounds(p: Params, f: IndexFile, log: seq<Rec>, w: Wit)
    requires GoodLog(p, log) && IndexInv(p, f, log, w)
    ensures w.k1 <= |log|
  {
  }

  // ----- every step, every run -----

  /** No put at the height that doubles as the unset sentinel. */
  predicate NoSentinel(steps: seq<Step>) {
    forall i :: 0 <= i < |steps| && steps[i].Begin? ==> steps[i].r.height != UNSET_HEIGHT
  }

  /** A power failure that strikes s leaves its first header safe; any other step does. */
  predicate SafeStep(s: Sys, step: Step) {
    step.PowerFailure? && |step.keep| == |s.store.disk.index.pending| ==> HeaderSafe(s.store.disk.index, step.keep)
  }

  /** Every power failure of the run left the first header safe when it struck. */
  ghost predicate SafeFailures(p: Params, steps: seq<Step>)
    requires p.maxFile > 0 && p.checkpoint > 0
  {
    forall i :: 0 <= i < |steps| ==> var before := Run(p, Empty, steps[..i]);
                                     before.Some? ==> SafeStep(before.value, steps[i])
  }

  lemma SafeFailuresSplit(p: Params, steps: seq<Step>)
    requires p.maxFile > 0 && p.checkpoint > 0 && steps != [] && Run(p, Empty, steps[..|steps| - 1]).Some?
    ensures var n := |steps| - 1;
            SafeFailures(p, steps)
            <==> SafeFailures(p, steps[..n]) && SafeStep(Run(p, Empty, steps[..n]).value, steps[n])
  {
    hide Run, SafeStep;
    var n := |steps| - 1;
    assert forall i :: 0 <= i < n ==> steps[..n][..i] == steps[..i] && steps[..n][i] == steps[i];
  }

  lemma StepKeepsInv(p: Params, s: Sys, w: Wit, step: Step, s': Sys) returns (w': Wit)
    requires Inv(p, s, w) && NoSentinel([step]) && SafeStep(s, step) && Apply(p, s, step) == Some(s')
    ensures Inv(p, s', w')
  {
    hide Inv, LoadHeader, ScanStep, DoData, DoSlot, DoSync, DoHeader, DoAllocate, CheckPut, StartRecovery;
    w' := w;
    match step
    case OpenLoad =>
      var s1, w1 := StepOpen(p, s, w);
      w' := w1;
    case ScanOne => StepScan(p, s, w, s');
    case ScanDone => StepScanDone(p, s, w, s');
    case Begin(r) =>
      assert [step][0] == step;
      StepBegin(p, s, w, r, s');
    case WriteBlock => StepData(p, s, w, s');
    case WriteSlot =>
      var s1 := StepSlot(p, s, w);
    case RaiseMax =>
      var s1 := StepRaise(p, s, w);
    case Fsync =>
      var s1, w1 := StepFsync(p, s, w);
      w' := w1;
    case RewriteHeader =>
      var s1, w1 := StepHeader(p, s, w);
      w' := w1;
    case BeginClose => StepClose(p, s, w);
    case ProcessCrash => StepCrash(p, s, w);
    case PowerFailure(keep) => w' := StepPower(p, s, w, keep);
  }

  lemma EmptyInv(p: Params)
    requires Lawful(p) && p.sync
    ensures Inv(p, Empty, Wit(0, 0, false))
  {
  }

  lemma {:induction false} RunKeepsInv(p: Params, steps: seq<Step>) returns (w: Wit)
    requires Lawful(p) && p.sync && NoSentinel(steps) && Run(p, Empty, steps).Some? && SafeFailures(p, steps)
    ensures Inv(p, Run(p, Empty, steps).value, w)
  {
    hide Inv, Apply, SafeFailures, SafeStep;
    if steps == [] {
      EmptyInv(p);
      return Wit(0, 0, false);
    }
    var n := |steps| - 1;
    SafeFailuresSplit(p, steps);
    var w0 := RunKeepsInv(p, steps[..n]);
    w := StepKeepsInv(p, Run(p, Empty, steps[..n]).value, w0, steps[n], Run(p, Empty, steps).value);
  }

  // ----- the theorem -----

  lemma ReopenServes(p: Params, d: Disk, log: seq<Rec>, w: Wit)
    requires GoodLog(p, log) && d.files == FilesOf(p, log) && IndexInv(p, d.index, log, w)
    ensures var (r, d') := Open(p, d);
            && r == Ok(Live(EndOf(p, log), MaxOf(log)))
            && Holds(p, Store(d', r.value), log, |log|)
  {
    var d1, k, w1 := LoadGood(p, d, log, w);
    RecoverGood(p, d1, log, k);
  }

  /** No open has failed; an open store serves the last completed block at h; and a store that is down opens,
      with the write offset and the maximum height of the blocks whose data write completed, and serves it too. */
  ghost predicate Consistent(p: Params, s: Sys, h: u64) {
    && !s.phase.Failed?
    && GoodLog(p, s.log)
    && (s.phase.Idle? ==> GetUncached(p, s.store, h) == Lookup(p.minHeight, ContentOf(s.log), h))
    && (s.phase.Down? ==>
          var (r, d) := Open(p, s.store.disk);
          && r == Ok(Live(EndOf(p, s.log), MaxOf(s.log)))
          && GetUncached(p, Store(d, r.value), h) == Lookup(p.minHeight, ContentOf(s.log), h))
  }

  /** Every run of opens, puts, checkpoints and closes, with process crashes and safe power failures between any
      two steps, recovery included, is consistent at every height. */
  lemma CrashConsistency(p: Params, steps: seq<Step>, h: u64)
    requires Lawful(p) && p.sync && NoSentinel(steps) && Run(p, Empty, steps).Some? && SafeFailures(p, steps)
    ensures Consistent(p, Run(p, Empty, steps).value, h)
  {
    hide Run, SafeFailures, Open, GetUncached, EndOf, MaxOf, FilesOf, IndexInv;
    var w := RunKeepsInv(p, steps);
    var s := Run(p, Empty, steps).value;
    if s.phase.Down? {
      ReopenServes(p, s.store.disk, s.log, w);
      var (r, d) := Open(p, s.store.disk);
      GetIsLookup(p, Store(d, r.value), s.log, |s.log|, h);
    } else if s.phase.Idle? {
      IdleHolds(p, s, w);
      GetIsLookup(p, s.store, s.log, w.k1, h);
    }
  }

  lemma IdleHolds(p: Params, s: Sys, w: Wit)
    requires Inv(p, s, w) && s.phase.Idle?
    ensures Holds(p, s.store, s.log, w.k1)
  {
    VisibleCovers(p, s.store.disk.index, s.log, w);
  }
}
