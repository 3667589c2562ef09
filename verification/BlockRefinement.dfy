/** Every sequential run of the block store answers as a plain map from heights to blocks does, up to the
    first put at the unset sentinel that is accepted. */
module BlockRefinement {
  import opened Bytes
  import opened BlockFormat
  import opened BlockIndex
  import opened DataFiles
  import opened BlockLog
  import opened Recovery
  import opened BlockStore
  import opened BlockSettings

  datatype Op =
    | Put(height: u64, block: bytes)
    | Get(height: u64)
    | Has(height: u64)
    | MaxHeight
    | Reopen(config: Config)

  datatype Answer =
    | Stored(r: Result<()>)
    | Block(b: Result<bytes>)
    | Present(h: Result<bool>)
    | Highest(m: Option<u64>)
    | Reopened(e: Option<Error>)

  // ----- the store: byte files, counters and cache -----

  /** An open store under the settings in effect. */
  datatype Session = Session(p: Params, cap: nat, store: Store, cache: Cache)

  predicate Valid(s: Session) {
    s.p.maxFile > 0 && s.p.checkpoint > 0
  }

  ghost function StepStore(s: Session, op: Op): (r: (Answer, Session))
    requires Valid(s)
    ensures Valid(r.1)
  {
    match op
    case Put(h, b) =>
      var (r, s') := DoPut(s.p, s.store, Rec(h, b));
      (Stored(r), s.(store := s', cache := if r.Ok? then CachePut(s.cache, s.cap, h, b) else s.cache))
    case Get(h) =>
      var (r, s', c) := DoGet(s.p, s.cap, s.store, s.cache, h);
      (Block(r), s.(store := s', cache := c))
    case Has(h) => (Present(DoHas(s.p, s.store, h)), s)
    case MaxHeight => (Highest(DoMaxHeight(s.store)), s)
    case Reopen(c) =>
      var (e, s') := CloseAndOpen(s, c);
      (Reopened(e), s')
  }

  /** Closes the store and opens it under another configuration; a header without a file size opens nothing. */
  ghost function CloseAndOpen(s: Session, c: Config): (r: (Option<Error>, Session))
    requires Valid(s)
    ensures Valid(r.1)
  {
    var closed := DoHeader(s.p, DoSync(s.p, s.store));
    var q := Configured(With(s.p, c), closed.disk);
    if q.maxFile == 0 then (Some(Overflow), Session(s.p, c.cacheSize, closed, []))
    else
      var (r, d) := Open(q, closed.disk);
      match r
      case Err(e) => (Some(e), Session(q, c.cacheSize, Store(d, closed.live), []))
      case Ok(live) => (None, Session(q, c.cacheSize, Store(d, live), []))
  }

  ghost function RunStore(s: Session, ops: seq<Op>): seq<Answer>
    requires Valid(s)
    decreases |ops|
  {
    if ops == [] then []
    else
      var (a, s') := StepStore(s, ops[0]);
      [a] + RunStore(s', ops[1..])
  }

  // ----- the reference: a map, and the space used so far -----

  datatype Plain = Plain(m: map<u64, bytes>, used: nat)

  ghost function MaxHeightOf(keys: set<u64>): (m: u64)
    requires keys != {}
    ensures m in keys && forall h :: h in keys ==> h <= m
  {
    var x :| x in keys;
    if keys == {x} then x
    else
      assert keys == {x} + (keys - {x});
      var m := MaxHeightOf(keys - {x});
      assert forall h :: h in keys ==> h == x || h in keys - {x};
      if m > x then m else x
  }

  /** Whether a put is accepted, and the space used after it. */
  function PlainPut(p: Params, used: nat, r: Rec): Result<nat>
    requires p.maxFile > 0
  {
    match CheckPut(p, r)
    case Err(e) => Err(e)
    case Ok(total) =>
      if total > p.maxFile then Err(BlockTooLarge)
      else if Place(used, total, p.maxFile) + total as nat > U64_MAX then Err(Overflow)
      else Ok(Place(used, total, p.maxFile) + total as nat)
  }

  ghost function StepPlain(p: Params, s: Plain, op: Op): (Answer, Plain)
    requires p.maxFile > 0
  {
    match op
    case Put(h, b) =>
      var end := PlainPut(p, s.used, Rec(h, b));
      if end.Err? then (Stored(Err(end.error)), s) else (Stored(Ok(())), Plain(s.m[h := b], end.value))
    case Get(h) => (Block(Lookup(p.minHeight, s.m, h)), s)
    case Has(h) => (Present(Ok(h in s.m)), s)
    case MaxHeight => (Highest(if s.m == map[] then None else Some(MaxHeightOf(s.m.Keys))), s)
    case Reopen(_) => (Reopened(None), s)
  }

  ghost function RunPlain(p: Params, s: Plain, ops: seq<Op>): seq<Answer>
    requires p.maxFile > 0
    decreases |ops|
  {
    if ops == [] then []
    else
      var (a, s') := StepPlain(p, s, ops[0]);
      [a] + RunPlain(p, s', ops[1..])
  }

  // ----- puts at the sentinel -----

  /** The run puts at the unset sentinel, and the put is in range and finds room. */
  ghost predicate AcceptsSentinel(p: Params, q: Plain, ops: seq<Op>)
    requires p.maxFile > 0
    decreases |ops|
  {
    && ops != []
    && ((ops[0].Put? && ops[0].height == UNSET_HEIGHT && PlainPut(p, q.used, Rec(UNSET_HEIGHT, ops[0].block)).Ok?)
        || AcceptsSentinel(p, StepPlain(p, q, ops[0]).1, ops[1..]))
  }

  // ----- the simulation -----

  ghost predicate Agree(p: Params, s: Session, q: Plain, log: seq<Rec>, k: nat) {
    && SameLayout(p, s.p)
    && Holds(s.p, s.store, log, k)
    && CacheSound(s.cache, q.m)
    && q == Plain(ContentOf(log), EndOf(s.p, log))
  }

  lemma PutOutcome(p: Params, s: Store, r: Rec)
    requires p.maxFile > 0 && p.checkpoint > 0
    ensures match PlainPut(p, s.live.next, r)
            case Err(e) => DoPut(p, s, r) == (Err(e), s)
            case Ok(end) => DoPut(p, s, r).0 == Ok(()) && DoPut(p, s, r).1.live.next == end
  {
    if CheckPut(p, r).Ok? {
      var total := CheckPut(p, r).value;
      AllocateIsLeastFit(s.live.next, total, p.maxFile);
    }
  }

  /** The reference depends on the layout settings alone. */
  lemma PlainSame(p: Params, q: Params, s: Plain, op: Op)
    requires SameLayout(p, q) && p.maxFile > 0
    ensures StepPlain(p, s, op) == StepPlain(q, s, op)
  {
    hide Place, MaxHeightOf, Lookup;
  }

  lemma SimulatePut(p: Params, s: Session, q: Plain, log: seq<Rec>, k: nat, h: u64, b: bytes)
    returns (log': seq<Rec>, k': nat)
    requires Agree(p, s, q, log, k) && (h == UNSET_HEIGHT ==> PlainPut(s.p, q.used, Rec(h, b)).Err?)
    ensures StepStore(s, Put(h, b)).0 == StepPlain(s.p, q, Put(h, b)).0
    ensures Agree(p, StepStore(s, Put(h, b)).1, StepPlain(s.p, q, Put(h, b)).1, log', k')
  {
    hide DoPut, CachePut, CacheSound, MaxOf, FilesOf, EndOf, SlotsSince, PlainPut;
    var r := Rec(h, b);
    PutOutcome(s.p, s.store, r);
    if DoPut(s.p, s.store, r).0.Ok? {
      PutAppends(s.p, s.store, log, k, r);
      MaxOfSnoc(log, r);
      CachePutSound(s.cache, s.cap, h, b, q.m);
      return log + [r], if h % s.p.checkpoint == 0 then |log| + 1 else k;
    }
    return log, k;
  }

  lemma GetThroughCache(p: Params, cap: nat, s: Store, c: Cache, m: map<u64, bytes>, h: u64)
    requires p.maxFile > 0 && CacheSound(c, m) && GetUncached(p, s, h) == Lookup(p.minHeight, m, h)
    ensures DoGet(p, cap, s, c, h).0 == Lookup(p.minHeight, m, h)
    ensures CacheSound(DoGet(p, cap, s, c, h).2, m)
  {
    assert CacheGet(c, h).Some? ==> (h, CacheGet(c, h).value) in c;
    if h in m {
      CachePutSound(c, cap, h, m[h], m);
      assert m[h := m[h]] == m;
    }
  }

  /** A read of a store that holds a history creates no file. */
  lemma ReadKeepsStore(p: Params, s: Store, log: seq<Rec>, k: nat, h: u64)
    requires Holds(p, s, log, k)
    ensures AfterRead(p, s, h) == s
  {
    hide SlotsSince, FilesOf, EndOf, OffsetOf, ReadBlockIndex;
    IndexAnswers(p, s, log, h);
    if h in ContentOf(log) {
      var i := LastOf(log, h).value;
      BlockAtOf(p, log, i);
      ReadsBlock(p, s.disk.files, OffsetOf(p, log, i), log[i]);
    }
  }

  /** Cached and uncached reads agree with the map. */
  lemma SimulateGet(p: Params, s: Session, q: Plain, log: seq<Rec>, k: nat, h: u64)
    requires Agree(p, s, q, log, k)
    ensures StepStore(s, Get(h)).0 == StepPlain(s.p, q, Get(h)).0
    ensures Agree(p, StepStore(s, Get(h)).1, q, log, k)
  {
    hide GetUncached, AfterRead, SlotsSince, FilesOf, EndOf, CacheSound;
    GetIsLookup(s.p, s.store, log, k, h);
    GetThroughCache(s.p, s.cap, s.store, s.cache, q.m, h);
    ReadKeepsStore(s.p, s.store, log, k, h);
  }

  lemma HasFromIndex(p: Params, s: Store, h: u64)
    requires ReadBlockIndex(p, s, h).Err? ==> ReadBlockIndex(p, s, h).error in {NotFound, InvalidBlockHeight}
    ensures DoHas(p, s, h) == Ok(ReadBlockIndex(p, s, h).Ok?)
  {
  }

  lemma SimulateHas(p: Params, s: Session, q: Plain, log: seq<Rec>, k: nat, h: u64)
    requires Agree(p, s, q, log, k)
    ensures StepStore(s, Has(h)) == (StepPlain(s.p, q, Has(h)).0, s)
  {
    hide SlotsSince, FilesOf, EndOf, MaxOf, HeaderAt, ReadHeader, ReadBlockIndex, DoHas, CacheSound, DoPut, DoGet,
         CloseAndOpen;
    IndexAnswers(s.p, s.store, log, h);
    HasFromIndex(s.p, s.store, h);
  }

  lemma HighestOf(p: Params, log: seq<Rec>)
    requires GoodLog(p, log)
    ensures MaxOf(log) == if ContentOf(log) == map[] then UNSET_HEIGHT else MaxHeightOf(ContentOf(log).Keys)
  {
    HeightsSet(p, log);
    MaxOfIsMaximum(log);
    if log != [] { assert MaxOf(log) in ContentOf(log).Keys; }
  }

  lemma MaxOfSet(p: Params, log: seq<Rec>)
    requires GoodLog(p, log)
    ensures MaxOf(log) == UNSET_HEIGHT <==> ContentOf(log) == map[]
  {
    HeightsSet(p, log);
    MaxOfIsMaximum(log);
  }

  lemma SimulateMaxHeight(p: Params, s: Session, q: Plain, log: seq<Rec>, k: nat)
    requires Agree(p, s, q, log, k)
    ensures StepStore(s, MaxHeight) == (StepPlain(s.p, q, MaxHeight).0, s)
  {
    hide SlotsSince, FilesOf, EndOf, HeaderAt, ReadHeader, CacheSound, DoPut, DoGet, DoHas, CloseAndOpen, MaxOf,
         MaxHeightOf, GoodLog;
    HighestOf(s.p, log);
    MaxOfSet(s.p, log);
  }

  lemma SimulateReopen(p: Params, s: Session, q: Plain, log: seq<Rec>, k: nat, c: Config) returns (s': Session)
    requires Agree(p, s, q, log, k)
    ensures StepStore(s, Reopen(c)) == (Reopened(None), s')
    ensures Agree(p, s', q, log, |log|)
  {
    hide DoHeader, DoSync, Open, Configured, SlotsSince, FilesOf, EndOf, CacheSound, HeaderAt;
    var closed := DoHeader(s.p, DoSync(s.p, s.store));
    CheckpointGood(s.p, s.store, log, k);
    HeaderDecides(s.p, closed.disk, log, |log|, c);
    ReopenUnderAny(s.p, closed.disk, log, |log|, c);
    var r := Configured(With(s.p, c), closed.disk);
    LogSame(s.p, r, log);
    s' := CloseAndOpen(s, c).1;
    EmptyCache(q.m);
  }

  lemma EmptyCache(m: map<u64, bytes>)
    ensures CacheSound([], m)
  {
  }

  lemma SimulateStep(p: Params, s: Session, q: Plain, log: seq<Rec>, k: nat, op: Op)
    returns (s': Session, log': seq<Rec>, k': nat)
    requires Agree(p, s, q, log, k) && p.maxFile > 0
    requires op.Put? && op.height == UNSET_HEIGHT ==> PlainPut(p, q.used, Rec(UNSET_HEIGHT, op.block)).Err?
    ensures StepStore(s, op) == (StepPlain(p, q, op).0, s')
    ensures Agree(p, s', StepPlain(p, q, op).1, log', k')
  {
    hide Holds, CacheSound, DoPut, DoGet, DoHas, CloseAndOpen, MaxHeightOf, Lookup, Place;
    PlainSame(p, s.p, q, op);
    match op
    case Put(h, b) =>
      log', k' := SimulatePut(p, s, q, log, k, h, b);
      s' := StepStore(s, op).1;
    case Get(h) =>
      SimulateGet(p, s, q, log, k, h);
      s', log', k' := StepStore(s, op).1, log, k;
    case Has(h) =>
      SimulateHas(p, s, q, log, k, h);
      s', log', k' := s, log, k;
    case MaxHeight =>
      SimulateMaxHeight(p, s, q, log, k);
      s', log', k' := s, log, k;
    case Reopen(c) =>
      s' := SimulateReopen(p, s, q, log, k, c);
      log', k' := log, |log|;
  }

  lemma {:induction false} RunsAgree(p: Params, s: Session, q: Plain, log: seq<Rec>, k: nat, ops: seq<Op>)
    requires p.maxFile > 0 && Agree(p, s, q, log, k) && !AcceptsSentinel(p, q, ops)
    ensures RunStore(s, ops) == RunPlain(p, q, ops)
    decreases |ops|
  {
    hide Agree, StepStore, StepPlain;
    if ops != [] {
      SessionIsValid(p, s, q, log, k);
      var s', log', k' := SimulateStep(p, s, q, log, k, ops[0]);
      RunsAgree(p, s', StepPlain(p, q, ops[0]).1, log', k', ops[1..]);
    }
  }

  lemma SessionIsValid(p: Params, s: Session, q: Plain, log: seq<Rec>, k: nat)
    requires Agree(p, s, q, log, k)
    ensures Valid(s)
  {
  }

  // ----- the theorems -----

  /** A store opened on an empty directory. */
  ghost function Opened(p: Params, cap: nat): Session
    requires Lawful(p)
  {
    var (r, d) := Open(p, Disk(IndexFile([], []), map[]));
    Session(p, cap, Store(d, r.value), [])
  }

  lemma OpenedAgrees(p: Params, cap: nat)
    requires Lawful(p)
    ensures Open(p, Disk(IndexFile([], []), map[])).0.Ok?
    ensures Agree(p, Opened(p, cap), Plain(map[], 0), [], 0)
  {
    hide Open, SlotsSince, ReadHeader, HeaderAt;
    NothingYet(p);
    OpenFresh(p, Disk(IndexFile([], []), map[]), []);
    EmptyCache(map[]);
  }

  lemma NothingYet(p: Params)
    requires Lawful(p)
    ensures GoodLog(p, []) && FilesOf(p, []) == map[] && EndOf(p, []) == 0
  {
  }

  /** From an empty directory, every run that puts at no sentinel, or only where the put is refused, answers
      exactly as the plain map does, whatever the cache size, the file size, the evictions, and the
      configurations it is reopened under. */
  lemma StoreRefinesPlainMap(p: Params, cap: nat, ops: seq<Op>)
    requires Lawful(p) && !AcceptsSentinel(p, Plain(map[], 0), ops)
    ensures RunStore(Opened(p, cap), ops) == RunPlain(p, Plain(map[], 0), ops)
  {
    OpenedAgrees(p, cap);
    RunsAgree(p, Opened(p, cap), Plain(map[], 0), [], 0, ops);
  }

  /** Once the plain map holds a block at the sentinel, asking for the maximum tells the two apart: the store
      never answers with that height. */
  lemma {:induction false} SentinelShows(p: Params, s: Session, q: Plain, ops: seq<Op>)
    requires p.maxFile > 0 && Valid(s) && (UNSET_HEIGHT in q.m || AcceptsSentinel(p, q, ops))
    ensures RunStore(s, ops + [MaxHeight]) != RunPlain(p, q, ops + [MaxHeight])
    decreases |ops|
  {
    var all := ops + [MaxHeight];
    if ops == [] {
      assert all == [MaxHeight] && UNSET_HEIGHT in q.m.Keys;
      assert RunPlain(p, q, all)[0] == Highest(Some(UNSET_HEIGHT));
      assert RunStore(s, all)[0] == Highest(DoMaxHeight(s.store));
    } else {
      assert all[0] == ops[0] && all[1..] == ops[1..] + [MaxHeight];
      KeepsHeights(p, q, ops[0]);
      var s', q' := StepStore(s, ops[0]).1, StepPlain(p, q, ops[0]).1;
      SentinelShows(p, s', q', ops[1..]);
      assert RunStore(s, all)[1..] == RunStore(s', all[1..]) && RunPlain(p, q, all)[1..] == RunPlain(p, q', all[1..]);
    }
  }

  lemma KeepsHeights(p: Params, q: Plain, op: Op)
    requires p.maxFile > 0
    ensures forall h :: h in q.m ==> h in StepPlain(p, q, op).1.m
  {
  }

  lemma {:induction false} AcceptsMore(p: Params, q: Plain, ops: seq<Op>)
    requires p.maxFile > 0
    ensures AcceptsSentinel(p, q, ops + [MaxHeight]) <==> AcceptsSentinel(p, q, ops)
    decreases |ops|
  {
    var all := ops + [MaxHeight];
    if ops == [] {
      assert all[1..] == [];
    } else {
      assert all[0] == ops[0] && all[1..] == ops[1..] + [MaxHeight];
      AcceptsMore(p, StepPlain(p, q, ops[0]).1, ops[1..]);
    }
  }

  /** From any agreeing pair: the store keeps answering as the plain map, to the question for the maximum at
      the end, if and only if no put at the sentinel was in range and found room. */
  lemma AgreementIff(p: Params, s: Session, q: Plain, log: seq<Rec>, k: nat, ops: seq<Op>)
    requires p.maxFile > 0 && Agree(p, s, q, log, k) && Valid(s)
    ensures RunStore(s, ops + [MaxHeight]) == RunPlain(p, q, ops + [MaxHeight]) <==> !AcceptsSentinel(p, q, ops)
  {
    if AcceptsSentinel(p, q, ops) {
      SentinelShows(p, s, q, ops);
    } else {
      AcceptsMore(p, q, ops);
      RunsAgree(p, s, q, log, k, ops + [MaxHeight]);
    }
  }

  /** The same from an empty directory. */
  lemma RefinementIff(p: Params, cap: nat, ops: seq<Op>)
    requires Lawful(p)
    ensures RunStore(Opened(p, cap), ops + [MaxHeight]) == RunPlain(p, Plain(map[], 0), ops + [MaxHeight])
       <==> !AcceptsSentinel(p, Plain(map[], 0), ops)
  {
    OpenedAgrees(p, cap);
    AgreementIff(p, Opened(p, cap), Plain(map[], 0), [], 0, ops);
  }
}
