/** The block cache is a least-recently-used one: it holds the last blocks used, one per height, and evicts the one
    whose last use is longest ago. */
module BlockCache {
  import opened Bytes
  import opened BlockStore
  import opened BlockSettings
  import opened BlockRefinement

  /** The cache after blocks were stored or read at heights, oldest use first. */
  function RunCache(cap: nat, uses: seq<(u64, bytes)>): Cache {
    if uses == [] then []
    else
      var (h, block) := uses[|uses| - 1];
      CachePut(RunCache(cap, uses[..|uses| - 1]), cap, h, block)
  }

  /** k is the last use of the height. */
  predicate LastUse(uses: seq<(u64, bytes)>, h: u64, k: nat) {
    k < |uses| && uses[k].0 == h && forall j :: k < j < |uses| ==> uses[j].0 != h
  }

  /** Use k of the history is entry i of the cache. */
  predicate Cached(uses: seq<(u64, bytes)>, c: Cache, i: nat, k: nat) {
    i < |c| && LastUse(uses, c[i].0, k) && uses[k] == c[i]
  }

  /** Every entry is the last use of its height. */
  predicate Held(uses: seq<(u64, bytes)>, c: Cache, at: seq<nat>) {
    |at| == |c| && forall i :: 0 <= i < |c| ==> Cached(uses, c, i, at[i])
  }

  predicate Falling(at: seq<nat>) {
    forall i, j :: 0 <= i < j < |at| ==> at[i] > at[j]
  }

  /** A last use is among the times, or there are cap of them and all are later. */
  predicate Covered(cap: nat, at: seq<nat>, k: nat) {
    k in at || (|at| == cap && forall i :: 0 <= i < |at| ==> at[i] > k)
  }

  ghost predicate AllCovered(cap: nat, uses: seq<(u64, bytes)>, at: seq<nat>) {
    forall h: u64, k: nat :: LastUse(uses, h, k) ==> Covered(cap, at, k)
  }

  ghost predicate Lru(cap: nat, uses: seq<(u64, bytes)>, c: Cache, at: seq<nat>) {
    |c| <= cap && Held(uses, c, at) && Falling(at) && AllCovered(cap, uses, at)
  }

  lemma {:induction false} WithoutAt(c: Cache, i: nat)
    requires i < |c| && forall j :: 0 <= j < |c| && j != i ==> c[j].0 != c[i].0
    ensures Without(c, c[i].0) == c[..i] + c[i + 1..]
  {
    if i == 0 {
      WithoutNone(c[1..], c[0].0);
    } else {
      forall j | 0 <= j < |c[1..]| && j != i - 1 ensures c[1..][j].0 != c[1..][i - 1].0 { assert c[j + 1].0 != c[i].0; }
      WithoutAt(c[1..], i - 1);
      assert c[1..][i - 1] == c[i] && c[0].0 != c[i].0;
      assert [c[0]] + c[1..][..i - 1] == c[..i];
    }
  }

  lemma {:induction false} WithoutNone(c: Cache, h: u64)
    requires forall j :: 0 <= j < |c| ==> c[j].0 != h
    ensures Without(c, h) == c
  {
    if c != [] {
      forall j | 0 <= j < |c[1..]| ensures c[1..][j].0 != h { assert c[j + 1].0 != h; }
      WithoutNone(c[1..], h);
    }
  }

  /** Last uses before one more use. */
  lemma LastUseSnoc(uses: seq<(u64, bytes)>, u: (u64, bytes), h: u64, k: nat)
    ensures LastUse(uses + [u], h, k) <==> if u.0 == h then k == |uses| else LastUse(uses, h, k)
  {
    var all := uses + [u];
    assert all[|uses|] == u;
    if LastUse(all, h, k) && u.0 != h {
      assert forall j :: k < j < |uses| ==> uses[j] == all[j];
    }
  }

  /** Entry i of a cache, taken out. */
  function Out<T>(s: seq<T>, i: nat): seq<T>
    requires i < |s|
  {
    s[..i] + s[i + 1..]
  }

  lemma OutAt<T>(s: seq<T>, i: nat, j: nat)
    requires i < |s| && j < |s| - 1
    ensures |Out(s, i)| == |s| - 1 && Out(s, i)[j] == s[if j < i then j else j + 1]
  {
  }

  lemma OutFalling(at: seq<nat>, i: nat)
    requires Falling(at) && i < |at|
    ensures Falling(Out(at, i))
  {
    forall j, k | 0 <= j < k < |Out(at, i)| ensures Out(at, i)[j] > Out(at, i)[k] {
      OutAt(at, i, j);
      OutAt(at, i, k);
    }
  }

  /** Entries of other heights stay last uses. */
  lemma HeldStill(uses: seq<(u64, bytes)>, u: (u64, bytes), c: Cache, at: seq<nat>)
    requires Held(uses, c, at) && forall i :: 0 <= i < |c| ==> c[i].0 != u.0
    ensures Held(uses + [u], [u] + c, [|uses|] + at)
  {
    var all, c', at' := uses + [u], [u] + c, [|uses|] + at;
    forall j | 0 <= j < |c'| ensures Cached(all, c', j, at'[j]) {
      LastUseSnoc(uses, u, c'[j].0, at'[j]);
      if j > 0 {
        assert Cached(uses, c, j - 1, at[j - 1]);
        assert c'[j] == c[j - 1] && at'[j] == at[j - 1];
      }
    }
  }

  lemma HeldOut(uses: seq<(u64, bytes)>, c: Cache, at: seq<nat>, i: nat)
    requires Held(uses, c, at) && i < |c|
    ensures Held(uses, Out(c, i), Out(at, i))
  {
    forall j | 0 <= j < |Out(c, i)| ensures Cached(uses, Out(c, i), j, Out(at, i)[j]) {
      OutAt(c, i, j);
      OutAt(at, i, j);
      var m := if j < i then j else j + 1;
      assert Cached(uses, c, m, at[m]);
    }
  }

  lemma FallingNow(uses: seq<(u64, bytes)>, c: Cache, at: seq<nat>)
    requires Held(uses, c, at) && Falling(at)
    ensures Falling([|uses|] + at)
  {
    var at' := [|uses|] + at;
    forall i, j | 0 <= i < j < |at'| ensures at'[i] > at'[j] {
      assert Cached(uses, c, j - 1, at[j - 1]) && at'[j] == at[j - 1];
      if i > 0 { assert at'[i] == at[i - 1]; }
    }
  }

  /** Taking out the time of the height used now leaves every other height covered. */
  lemma CoveredHit(cap: nat, uses: seq<(u64, bytes)>, c: Cache, at: seq<nat>, u: (u64, bytes), i: nat, h: u64, k: nat)
    requires |c| <= cap && Held(uses, c, at) && i < |c| && c[i].0 == u.0
    requires h != u.0 && LastUse(uses, h, k) && Covered(cap, at, k)
    ensures Covered(cap, [|uses|] + Out(at, i), k)
  {
    var at' := [|uses|] + Out(at, i);
    if k in at {
      var m :| 0 <= m < |at| && at[m] == k;
      assert Cached(uses, c, m, at[m]) && Cached(uses, c, i, at[i]);
      var j := if m < i then m else m - 1;
      OutAt(at, i, j);
      assert at'[j + 1] == k;
    } else {
      forall j | 0 <= j < |at'| ensures at'[j] > k {
        if j > 0 { OutAt(at, i, j - 1); }
      }
    }
  }

  /** The use goes to the front, in place of an earlier use of its height. */
  lemma LruHit(cap: nat, uses: seq<(u64, bytes)>, c: Cache, at: seq<nat>, u: (u64, bytes), i: nat)
    returns (at': seq<nat>)
    requires Lru(cap, uses, c, at) && i < |c| && c[i].0 == u.0
    ensures Lru(cap, uses + [u], CachePut(c, cap, u.0, u.1), at')
  {
    forall j | 0 <= j < |c| && j != i ensures c[j].0 != c[i].0 { OtherHeight(uses, c, at, i, j); }
    WithoutAt(c, i);
    at' := [|uses|] + Out(at, i);
    assert CachePut(c, cap, u.0, u.1) == [u] + Out(c, i);
    HeldOut(uses, c, at, i);
    forall j | 0 <= j < |Out(c, i)| ensures Out(c, i)[j].0 != u.0 { OutAt(c, i, j); }
    HeldStill(uses, u, Out(c, i), Out(at, i));
    OutFalling(at, i);
    FallingNow(uses, Out(c, i), Out(at, i));
    forall h: u64, k: nat | LastUse(uses + [u], h, k) ensures Covered(cap, at', k) {
      LastUseSnoc(uses, u, h, k);
      if h == u.0 { assert at'[0] == k; } else { CoveredHit(cap, uses, c, at, u, i, h, k); }
    }
  }

  lemma OtherHeight(uses: seq<(u64, bytes)>, c: Cache, at: seq<nat>, i: nat, j: nat)
    requires Held(uses, c, at) && Falling(at) && i < |c| && j < |c| && i != j
    ensures c[j].0 != c[i].0
  {
    assert Cached(uses, c, i, at[i]) && Cached(uses, c, j, at[j]);
    assert at[i] < at[j] || at[j] < at[i];
  }

  lemma CoveredMiss(cap: nat, uses: seq<(u64, bytes)>, c: Cache, at: seq<nat>, h: u64, k: nat)
    requires |c| <= cap && Held(uses, c, at) && Falling(at) && LastUse(uses, h, k) && Covered(cap, at, k)
    ensures var whole := [|uses|] + at; Covered(cap, if |whole| <= cap then whole else whole[..cap], k)
  {
    var whole := [|uses|] + at;
    var at' := if |whole| <= cap then whole else whole[..cap];
    var m := |at|;
    if k in at { m :| 0 <= m < |at| && at[m] == k; }
    if m + 1 < |at'| {
      assert at'[m + 1] == k;
    } else {
      forall j | 0 <= j < |at'| ensures at'[j] > k { if j > 0 { assert at'[j] == at[j - 1]; } }
    }
  }

  /** A height that is not there goes to the front, and the entry used longest ago leaves a full cache. */
  lemma LruMiss(cap: nat, uses: seq<(u64, bytes)>, c: Cache, at: seq<nat>, u: (u64, bytes)) returns (at': seq<nat>)
    requires Lru(cap, uses, c, at) && forall i :: 0 <= i < |c| ==> c[i].0 != u.0
    ensures Lru(cap, uses + [u], CachePut(c, cap, u.0, u.1), at')
  {
    WithoutNone(c, u.0);
    var whole := [|uses|] + at;
    at' := if |whole| <= cap then whole else whole[..cap];
    assert CachePut(c, cap, u.0, u.1) == if |whole| <= cap then [u] + c else ([u] + c)[..cap];
    HeldStill(uses, u, c, at);
    HeldCut(uses + [u], [u] + c, whole, |at'|);
    assert whole[..|whole|] == whole && ([u] + c)[..|whole|] == [u] + c;
    FallingNow(uses, c, at);
    assert Falling(at');
    forall h: u64, k: nat | LastUse(uses + [u], h, k) ensures Covered(cap, at', k) {
      LastUseSnoc(uses, u, h, k);
      if h != u.0 {
        CoveredMiss(cap, uses, c, at, h, k);
      } else if cap > 0 {
        assert at'[0] == k;
      }
    }
  }

  lemma HeldCut(uses: seq<(u64, bytes)>, c: Cache, at: seq<nat>, n: nat)
    requires Held(uses, c, at) && n <= |c|
    ensures Held(uses, c[..n], at[..n])
  {
    forall i | 0 <= i < n ensures Cached(uses, c[..n], i, at[..n][i]) { assert Cached(uses, c, i, at[i]); }
  }

  /** After any uses, a cache of any size holds, most recent first, the last uses of the heights used last, and every
      height it does not hold was last used before all it does. */
  lemma {:induction false} CacheIsLru(cap: nat, uses: seq<(u64, bytes)>) returns (at: seq<nat>)
    ensures Lru(cap, uses, RunCache(cap, uses), at)
  {
    if uses == [] {
      at := [];
    } else {
      var n := |uses| - 1;
      var u, c := uses[n], RunCache(cap, uses[..n]);
      var before := CacheIsLru(cap, uses[..n]);
      assert uses == uses[..n] + [u];
      if i :| 0 <= i < |c| && c[i].0 == u.0 {
        at := LruHit(cap, uses[..n], c, before, u, i);
      } else {
        at := LruMiss(cap, uses[..n], c, before, u);
      }
    }
  }

  lemma {:induction false} CacheGetAt(c: Cache, h: u64)
    ensures match CacheGet(c, h)
            case None => forall i :: 0 <= i < |c| ==> c[i].0 != h
            case Some(block) => exists i :: 0 <= i < |c| && c[i] == (h, block)
  {
    if c != [] && c[0].0 != h {
      CacheGetAt(c[1..], h);
      if CacheGet(c, h).None? {
        forall i | 0 <= i < |c| ensures c[i].0 != h { if i > 0 { assert c[i] == c[1..][i - 1]; } }
      }
    } else if c != [] {
      assert c[0] == (h, c[0].1);
    }
  }

  /** A cached height answers with the block of its last use, and a height that left the cache does not answer. */
  lemma CacheAnswers(cap: nat, uses: seq<(u64, bytes)>, c: Cache, at: seq<nat>, h: u64, k: nat)
    requires Lru(cap, uses, c, at) && LastUse(uses, h, k)
    ensures CacheGet(c, h) == if k in at then Some(uses[k].1) else None
  {
    if k in at {
      var i :| 0 <= i < |at| && at[i] == k;
      assert Cached(uses, c, i, at[i]);
    }
    CacheGetAt(c, h);
    if CacheGet(c, h).Some? {
      var i :| 0 <= i < |c| && c[i] == (h, CacheGet(c, h).value);
      assert Cached(uses, c, i, at[i]);
      assert at[i] == k;
    }
  }

  // ----- the uses of a run -----

  /** The uses, behind the earlier ones, that a step makes of the cache: accepted puts and reads that found a block;
      a reopened store starts with none. */
  function UsesAfter(uses: seq<(u64, bytes)>, op: Op, a: Answer): seq<(u64, bytes)> {
    match (op, a)
    case (Put(h, b), Stored(Ok(_))) => uses + [(h, b)]
    case (Get(h), Block(Ok(b))) => uses + [(h, b)]
    case (Reopen(_), _) => []
    case _ => uses
  }

  function UsesOf(uses: seq<(u64, bytes)>, ops: seq<Op>, answers: seq<Answer>): seq<(u64, bytes)>
    requires |ops| == |answers|
    decreases |ops|
  {
    if ops == [] then uses else UsesOf(UsesAfter(uses, ops[0], answers[0]), ops[1..], answers[1..])
  }

  ghost function EndOfRun(s: Session, ops: seq<Op>): (end: Session)
    requires Valid(s)
    ensures Valid(end) && |RunStore(s, ops)| == |ops|
    decreases |ops|
  {
    if ops == [] then s else EndOfRun(StepStore(s, ops[0]).1, ops[1..])
  }

  lemma StepUses(s: Session, uses: seq<(u64, bytes)>, op: Op)
    requires Valid(s) && s.cache == RunCache(s.cap, uses)
    ensures var (a, s') := StepStore(s, op); s'.cache == RunCache(s'.cap, UsesAfter(uses, op, a))
  {
    hide DoPut, GetUncached, AfterRead, CachePut, CloseAndOpen;
    match op
    case Put(h, b) => assert (uses + [(h, b)])[..|uses|] == uses;
    case Get(h) =>
      var a := StepStore(s, op).0;
      if a.b.Ok? { assert (uses + [(h, a.b.value)])[..|uses|] == uses; }
    case Has(_) =>
    case MaxHeight =>
    case Reopen(c) => ReopenedCold(s, c);
  }

  lemma ReopenedCold(s: Session, c: Config)
    requires Valid(s)
    ensures CloseAndOpen(s, c).1.cache == []
  {
  }

  /** Along every run of the store the cache is what the uses so far left in it. */
  lemma {:induction false} RunUses(s: Session, uses: seq<(u64, bytes)>, ops: seq<Op>)
    requires Valid(s) && s.cache == RunCache(s.cap, uses)
    ensures var end := EndOfRun(s, ops); end.cache == RunCache(end.cap, UsesOf(uses, ops, RunStore(s, ops)))
    decreases |ops|
  {
    if ops != [] {
      hide StepStore, RunCache;
      StepUses(s, uses, ops[0]);
      var (a, s') := StepStore(s, ops[0]);
      RunUses(s', UsesAfter(uses, ops[0], a), ops[1..]);
      assert RunStore(s, ops)[1..] == RunStore(s', ops[1..]);
    }
  }

  /** The size of the cache: that of the last configuration. */
  function CapOf(cap: nat, ops: seq<Op>): nat
    decreases |ops|
  {
    if ops == [] then cap else CapOf(if ops[0].Reopen? then ops[0].config.cacheSize else cap, ops[1..])
  }

  lemma StepCap(s: Session, op: Op)
    requires Valid(s)
    ensures StepStore(s, op).1.cap == if op.Reopen? then op.config.cacheSize else s.cap
  {
    hide DoPut, DoGet, DoHas;
  }

  lemma {:induction false} RunCap(s: Session, ops: seq<Op>)
    requires Valid(s)
    ensures EndOfRun(s, ops).cap == CapOf(s.cap, ops)
    decreases |ops|
  {
    hide StepStore;
    if ops != [] {
      StepCap(s, ops[0]);
      RunCap(StepStore(s, ops[0]).1, ops[1..]);
    }
  }

  /** After any run from a store opened with no cached block, the cache is least recently used over that run, at the
      size of the configuration in effect. */
  lemma RunKeepsLru(s: Session, ops: seq<Op>) returns (at: seq<nat>)
    requires Valid(s) && s.cache == []
    ensures var end := EndOfRun(s, ops); Lru(CapOf(s.cap, ops), UsesOf([], ops, RunStore(s, ops)), end.cache, at)
  {
    RunCap(s, ops);
    RunUses(s, [], ops);
    at := CacheIsLru(EndOfRun(s, ops).cap, UsesOf([], ops, RunStore(s, ops)));
  }
}
