/** The height-versioned archive: batches stamped with a height, and reads as of a height. */
module Archive {
  import opened Bytes
  import opened Uvarint
  import opened ArchiveKeys
  import opened MemDb

  datatype Op = PutOp(key: Slice, value: bytes) | DeleteOp(key: Slice)

  /** What one operation writes: no value for a deletion. */
  datatype Write = Write(key: Slice, height: u64, value: Option<bytes>)

  datatype Batch = Batch(height: u64, ops: seq<Op>)

  function WriteOf(op: Op, height: u64): Write {
    Write(op.key, height, if op.PutOp? then Some(op.value) else None)
  }

  function ApplyWrite(es: Entries, w: Write): Entries {
    Insert(es, UserKey(w.key, w.height), Stored(w.value))
  }

  function ApplyOps(es: Entries, height: u64, ops: seq<Op>): Entries {
    if ops == [] then es
    else ApplyWrite(ApplyOps(es, height, ops[..|ops| - 1]), WriteOf(ops[|ops| - 1], height))
  }

  function ApplyBatch(es: Entries, b: Batch): Entries {
    Insert(ApplyOps(es, b.height, b.ops), HEIGHT_KEY, BE(b.height, 8))
  }

  /** The base database after a history of batches. */
  function StateOf(history: seq<Batch>): Entries {
    if history == [] then [] else ApplyBatch(StateOf(history[..|history| - 1]), history[|history| - 1])
  }

  function Entry(e: (bytes, bytes)): Result<(bytes, u64, bool)> {
    match Parse(e.0)
    case Err(x) => Err(x)
    case Ok((_, height)) =>
      var (value, live) := ParseValue(e.1);
      Ok((value, height, live))
  }

  function EntryAt(es: Entries, key: Slice, height: u64): Result<(bytes, u64, bool)> {
    var hits := Hits(es, UserKey(key, height), UserPrefix(key));
    if hits == [] then Err(NotFound) else Entry(hits[0])
  }

  function ValueAt(es: Entries, key: Slice, height: u64): Result<bytes> {
    match EntryAt(es, key, height)
    case Err(e) => Err(e)
    case Ok((value, _, live)) => if live then Ok(value) else Err(NotFound)
  }

  function HeightAt(es: Entries, key: Slice, height: u64): Result<u64> {
    match EntryAt(es, key, height)
    case Err(e) => Err(e)
    case Ok((_, written, live)) => if live then Ok(written) else Err(NotFound)
  }

  function PresentAt(es: Entries, key: Slice, height: u64): Result<bool> {
    match EntryAt(es, key, height)
    case Err(e) => if e == NotFound then Ok(false) else Err(e)
    case Ok((_, _, live)) => Ok(live)
  }

  function HeightOf(es: Entries): Result<u64> {
    match Find(es, HEIGHT_KEY)
    case None => Err(NotFound)
    case Some(v) => Pow256Values(); if |v| == 8 then Ok(FromBE(v)) else Err(BadHeight)
  }

  // ----- the archive as it runs -----

  /** An archive over its base database. */
  class ArchiveDb {
    var es: Entries

    constructor ()
      ensures es == StateOf([])
    {
      es := [];
    }

    method Height() returns (r: Result<u64>)
      ensures r == HeightOf(es)
    {
      var v := Find(es, HEIGHT_KEY);
      if v.None? { return Err(NotFound); }
      if |v.value| != 8 { return Err(BadHeight); }
      Pow256Values();
      r := Ok(FromBE(v.value));
    }

    method GetEntry(key: Slice, height: u64) returns (r: Result<(bytes, u64, bool)>)
      requires Ascending(es)
      ensures r == EntryAt(es, key, height)
    {
      var dbKey, prefix := NewDbKeyFromUser(key, height);
      var it := Snapshot(es, dbKey, prefix);
      if it == [] { return Err(NotFound); }
      var parsed := ParseDbKeyFromUser(it[0].0);
      if parsed.Err? { return Err(parsed.error); }
      var (value, live) := ParseValue(it[0].1);
      r := Ok((value, parsed.value.1, live));
    }

    method Get(key: Slice, height: u64) returns (r: Result<bytes>)
      requires Ascending(es)
      ensures r == ValueAt(es, key, height)
    {
      var e := GetEntry(key, height);
      if e.Err? { return Err(e.error); }
      r := if e.value.2 then Ok(e.value.0) else Err(NotFound);
    }

    method GetHeight(key: Slice, height: u64) returns (r: Result<u64>)
      requires Ascending(es)
      ensures r == HeightAt(es, key, height)
    {
      var e := GetEntry(key, height);
      if e.Err? { return Err(e.error); }
      r := if e.value.2 then Ok(e.value.1) else Err(NotFound);
    }

    method Has(key: Slice, height: u64) returns (r: Result<bool>)
      requires Ascending(es)
      ensures r == PresentAt(es, key, height)
    {
      var v := Get(key, height);
      if v.Ok? { return Ok(true); }
      r := if v.error == NotFound then Ok(false) else Err(v.error);
    }
  }

  /** A batch buffers its operations until it is written, all at its one height. */
  class ArchiveBatch {
    const db: ArchiveDb
    const height: u64
    var ops: seq<Op>

    constructor (db: ArchiveDb, height: u64)
      ensures this.db == db && this.height == height && ops == []
    {
      this.db, this.height, ops := db, height, [];
    }

    method Put(key: Slice, value: bytes)
      modifies this`ops
      ensures ops == old(ops) + [PutOp(key, value)]
    {
      ops := ops + [PutOp(key, value)];
    }

    method Delete(key: Slice)
      modifies this`ops
      ensures ops == old(ops) + [DeleteOp(key)]
    {
      ops := ops + [DeleteOp(key)];
    }

    method Reset()
      modifies this`ops
      ensures ops == []
    {
      ops := [];
    }

    /** Every operation's entry and the new height reach the base database in one step. */
    method Commit()
      requires Ascending(db.es)
      modifies db
      ensures Ascending(db.es)
      ensures db.es == ApplyBatch(old(db.es), Batch(height, ops))
    {
      var batch := Encoded(db.es);
      var whole := batch + [(HEIGHT_KEY, BE(height, 8))];
      assert whole[..|batch|] == batch;
      ApplyBatchSorted(db.es, Batch(height, ops));
      db.es := Replay(db.es, whole);
    }

    /** The puts that carry the operations out on a base database. */
    method Encoded(ghost es: Entries) returns (batch: seq<(bytes, bytes)>)
      ensures Replay(es, batch) == ApplyOps(es, height, ops)
    {
      batch := [];
      var i := 0;
      while i < |ops|
        invariant i <= |ops| && Replay(es, batch) == ApplyOps(es, height, ops[..i])
      {
        var op := ops[i];
        assert ops[..i + 1][..i] == ops[..i];
        var dbKey, _ := NewDbKeyFromUser(op.key, height);
        var dbValue := match op case PutOp(_, value) => [0x00] + value case DeleteOp(_) => [];
        assert (batch + [(dbKey, dbValue)])[..|batch|] == batch;
        batch := batch + [(dbKey, dbValue)];
        i := i + 1;
      }
      assert ops[..i] == ops;
    }
  }

  lemma {:induction false} ApplyOpsSorted(es: Entries, height: u64, ops: seq<Op>)
    requires Ascending(es)
    ensures Ascending(ApplyOps(es, height, ops))
  {
    if ops != [] {
      var n := |ops| - 1;
      ApplyOpsSorted(es, height, ops[..n]);
      var w := WriteOf(ops[n], height);
      InsertSorted(ApplyOps(es, height, ops[..n]), UserKey(w.key, w.height), Stored(w.value));
    }
  }

  lemma ApplyBatchSorted(es: Entries, b: Batch)
    requires Ascending(es)
    ensures Ascending(ApplyBatch(es, b))
  {
    ApplyOpsSorted(es, b.height, b.ops);
    InsertSorted(ApplyOps(es, b.height, b.ops), HEIGHT_KEY, BE(b.height, 8));
  }

  /** A base batch's puts, in order. */
  function Replay(es: Entries, batch: seq<(bytes, bytes)>): Entries {
    if batch == [] then es
    else
      var last := batch[|batch| - 1];
      Insert(Replay(es, batch[..|batch| - 1]), last.0, last.1)
  }

  // ----- the reference: a log of writes -----

  function WritesOf(ops: seq<Op>, height: u64): seq<Write> {
    if ops == [] then [] else WritesOf(ops[..|ops| - 1], height) + [WriteOf(ops[|ops| - 1], height)]
  }

  /** All writes of a history, oldest first. */
  function LogOf(history: seq<Batch>): seq<Write> {
    if history == [] then []
    else LogOf(history[..|history| - 1]) + WritesOf(history[|history| - 1].ops, history[|history| - 1].height)
  }

  predicate Visible(w: Write, key: Slice, height: u64) {
    w.key == key && w.height <= height
  }

  /** The visible write of greatest height, the last of those with equal height. */
  ghost predicate IsNewest(log: seq<Write>, key: Slice, height: u64, i: nat) {
    && i < |log| && Visible(log[i], key, height)
    && forall j :: 0 <= j < |log| && Visible(log[j], key, height) ==>
         log[j].height < log[i].height || (log[j].height == log[i].height && j <= i)
  }

  function Newest(log: seq<Write>, key: Slice, height: u64): (r: Option<nat>)
    ensures r.Some? ==> IsNewest(log, key, height, r.value)
    ensures r.None? ==> forall j :: 0 <= j < |log| ==> !Visible(log[j], key, height)
  {
    if log == [] then None
    else
      var n := |log| - 1;
      var prev := Newest(log[..n], key, height);
      if Visible(log[n], key, height) && (prev.None? || log[n].height >= log[prev.value].height) then Some(n) else prev
  }

  // ----- the refinement -----

  /** What the base database stores under a key: the last write to it. */
  function LastUnder(log: seq<Write>, k: bytes): Option<bytes> {
    if log == [] then None
    else
      var w := log[|log| - 1];
      if UserKey(w.key, w.height) == k then Some(Stored(w.value)) else LastUnder(log[..|log| - 1], k)
  }

  ghost predicate Holds(es: Entries, log: seq<Write>) {
    Ascending(es) && forall k :: k != HEIGHT_KEY ==> Find(es, k) == LastUnder(log, k)
  }

  lemma HoldsWrite(es: Entries, log: seq<Write>, w: Write)
    requires Holds(es, log)
    ensures Holds(ApplyWrite(es, w), log + [w])
  {
    var k0 := UserKey(w.key, w.height);
    InsertSorted(es, k0, Stored(w.value));
    assert (log + [w])[..|log|] == log;
    forall k | k != HEIGHT_KEY ensures Find(ApplyWrite(es, w), k) == LastUnder(log + [w], k) {
      InsertFinds(es, k0, Stored(w.value), k);
    }
  }

  lemma {:induction false} HoldsOps(es: Entries, log: seq<Write>, height: u64, ops: seq<Op>)
    requires Holds(es, log)
    ensures Holds(ApplyOps(es, height, ops), log + WritesOf(ops, height))
  {
    hide Holds, Insert, UserKey, Stored;
    if ops == [] {
      assert log + [] == log;
    } else {
      var n := |ops| - 1;
      HoldsOps(es, log, height, ops[..n]);
      HoldsWrite(ApplyOps(es, height, ops[..n]), log + WritesOf(ops[..n], height), WriteOf(ops[n], height));
      assert log + WritesOf(ops, height) == log + WritesOf(ops[..n], height) + [WriteOf(ops[n], height)];
    }
  }

  lemma {:induction false} HoldsHistory(history: seq<Batch>)
    ensures Holds(StateOf(history), LogOf(history))
  {
    if history != [] {
      var n := |history| - 1;
      var b := history[n];
      HoldsHistory(history[..n]);
      HoldsOps(StateOf(history[..n]), LogOf(history[..n]), b.height, b.ops);
      var es := ApplyOps(StateOf(history[..n]), b.height, b.ops);
      InsertSorted(es, HEIGHT_KEY, BE(b.height, 8));
      forall k | k != HEIGHT_KEY ensures Find(StateOf(history), k) == LastUnder(LogOf(history), k) {
        InsertFinds(es, HEIGHT_KEY, BE(b.height, 8), k);
      }
    }
  }

  /** Anything stored under a user key comes from a write to it. */
  lemma {:induction false} LastUnderIsWrite(log: seq<Write>, k: bytes) returns (i: nat)
    requires LastUnder(log, k).Some?
    ensures i < |log| && UserKey(log[i].key, log[i].height) == k && LastUnder(log, k) == Some(Stored(log[i].value))
    ensures forall j :: i < j < |log| ==> UserKey(log[j].key, log[j].height) != k
  {
    i := |log| - 1;
    if UserKey(log[i].key, log[i].height) != k {
      i := LastUnderIsWrite(log[..i], k);
    }
  }

  lemma {:induction false} NewestIsLastUnder(log: seq<Write>, key: Slice, height: u64, i: nat)
    requires IsNewest(log, key, height, i)
    ensures LastUnder(log, UserKey(key, log[i].height)) == Some(Stored(log[i].value))
  {
    var n := |log| - 1;
    if n != i {
      if UserKey(log[n].key, log[n].height) == UserKey(key, log[i].height) {
        UserKeyInjective(log[n].key, log[n].height, key, log[i].height);
      }
      assert IsNewest(log[..n], key, height, i) by {
        forall j | 0 <= j < n && Visible(log[..n][j], key, height)
          ensures log[..n][j].height < log[i].height || (log[..n][j].height == log[i].height && j <= i)
        {
          assert Visible(log[j], key, height);
        }
      }
      NewestIsLastUnder(log[..n], key, height, i);
    }
  }

  /** An entry the read's iteration yields is a visible write. */
  lemma HitIsVisible(es: Entries, log: seq<Write>, key: Slice, height: u64, e: (bytes, bytes)) returns (i: nat)
    requires Holds(es, log) && e in es && Hit(e.0, UserKey(key, height), UserPrefix(key))
    ensures i < |log| && Visible(log[i], key, height) && e.0 == UserKey(key, log[i].height)
  {
    HeightKeyIsMetadata();
    MetaKeyIsolated(key, 0, []);
    FindIsEntry(es, e);
    i := LastUnderIsWrite(log, e.0);
    UserPrefixIsolated(key, log[i].key, log[i].height);
    UserKeyOrder(key, height, log[i].height);
  }

  /** A read as of a height, over any history of batches at any heights, finds the newest write at or below
      that height: its value, its height and whether it was a deletion; never a corrupt entry. */
  lemma VersionedRead(history: seq<Batch>, key: Slice, height: u64)
    ensures var log := LogOf(history);
            match Newest(log, key, height)
            case None => EntryAt(StateOf(history), key, height) == Err(NotFound)
            case Some(i) => EntryAt(StateOf(history), key, height)
                            == Ok((if log[i].value.Some? then log[i].value.value else [],
                                   log[i].height, log[i].value.Some?))
  {
    HoldsHistory(history);
    var es, log := StateOf(history), LogOf(history);
    var start, prefix := UserKey(key, height), UserPrefix(key);
    match Newest(log, key, height)
    case None =>
      forall e | e in es ensures !Hit(e.0, start, prefix) {
        if Hit(e.0, start, prefix) { var i := HitIsVisible(es, log, key, height, e); }
      }
      NoHits(es, start, prefix);
    case Some(i) =>
      NewestIsHit(es, log, key, height, i);
      ParseInvertsBuild(key, log[i].height);
      ParseInvertsStored(log[i].value);
  }

  lemma NewestIsHit(es: Entries, log: seq<Write>, key: Slice, height: u64, i: nat)
    requires Holds(es, log) && IsNewest(log, key, height, i)
    ensures var hits := Hits(es, UserKey(key, height), UserPrefix(key));
            hits != [] && hits[0] == (UserKey(key, log[i].height), Stored(log[i].value))
  {
    var start, prefix := UserKey(key, height), UserPrefix(key);
    var e := (UserKey(key, log[i].height), Stored(log[i].value));
    NewestIsLastUnder(log, key, height, i);
    HeightKeyIsMetadata();
    MetaKeyIsolated(key, log[i].height, []);
    FindIsEntry(es, e);
    UserPrefixIsolated(key, key, log[i].height);
    UserKeyOrder(key, height, log[i].height);
    forall x | x in es && Hit(x.0, start, prefix) ensures Le(e.0, x.0) {
      var j := HitIsVisible(es, log, key, height, x);
      UserKeyOrder(key, log[i].height, log[j].height);
    }
    FirstHit(es, start, prefix, e);
  }

  // ----- consequences -----

  lemma {:induction false} NewestIgnores(log: seq<Write>, more: seq<Write>, key: Slice, height: u64)
    requires forall w :: w in more ==> !Visible(w, key, height)
    ensures Newest(log + more, key, height) == Newest(log, key, height)
    decreases |more|
  {
    if more == [] {
      assert log + more == log;
    } else {
      var n := |more| - 1;
      assert (log + more)[..|log| + n] == log + more[..n];
      assert more[n] in more;
      NewestIgnores(log, more[..n], key, height);
    }
  }

  lemma {:induction false} LogConcat(a: seq<Batch>, b: seq<Batch>)
    ensures LogOf(a) <= LogOf(a + b)
    ensures forall w :: w in LogOf(a + b)[|LogOf(a)|..] ==> exists x :: x in b && WrittenBy(w, x)
    decreases |b|
  {
    if b == [] {
      assert a + b == a;
    } else {
      var n := |b| - 1;
      assert (a + b)[..|a| + n] == a + b[..n];
      LogConcat(a, b[..n]);
      var rest := WritesOf(b[n].ops, b[n].height);
      assert LogOf(a + b) == LogOf(a + b[..n]) + rest;
      forall w | w in LogOf(a + b)[|LogOf(a)|..] ensures exists x :: x in b && WrittenBy(w, x) {
        if w in rest {
          WritesOfBatch(b[n].ops, b[n].height, w);
          assert b[n] in b && WrittenBy(w, b[n]);
        } else {
          assert w in LogOf(a + b[..n])[|LogOf(a)|..];
          var x :| x in b[..n] && WrittenBy(w, x);
          assert x in b;
        }
      }
    }
  }

  ghost predicate WrittenBy(w: Write, b: Batch) {
    w.height == b.height && exists op :: op in b.ops && op.key == w.key
  }

  lemma {:induction false} WritesOfBatch(ops: seq<Op>, height: u64, w: Write)
    requires w in WritesOf(ops, height)
    ensures WrittenBy(w, Batch(height, ops))
  {
    var n := |ops| - 1;
    if w == WriteOf(ops[n], height) {
      assert ops[n] in ops;
    } else {
      WritesOfBatch(ops[..n], height, w);
      var op :| op in ops[..n] && op.key == w.key;
      assert op in ops;
    }
  }

  /** Later batches above the read height, or that do not touch the key, never change a read. */
  lemma LaterWritesAboveDoNotMatter(history: seq<Batch>, more: seq<Batch>, key: Slice, height: u64)
    requires forall b :: b in more ==> b.height > height || forall op :: op in b.ops ==> op.key != key
    ensures EntryAt(StateOf(history + more), key, height) == EntryAt(StateOf(history), key, height)
  {
    LogConcat(history, more);
    var log, all := LogOf(history), LogOf(history + more);
    assert all == log + all[|log|..];
    NewestIgnores(log, all[|log|..], key, height);
    VersionedRead(history, key, height);
    VersionedRead(history + more, key, height);
  }

  /** The recorded height is the last batch's, whatever its operations wrote. */
  lemma HeightIsLast(history: seq<Batch>)
    ensures HeightOf(StateOf(history)) == if history == [] then Err(NotFound) else Ok(history[|history| - 1].height)
  {
    if history != [] {
      var b := history[|history| - 1];
      var es := ApplyOps(StateOf(history[..|history| - 1]), b.height, b.ops);
      InsertFinds(es, HEIGHT_KEY, BE(b.height, 8), HEIGHT_KEY);
      Pow256Values();
      BERoundTrip(b.height, 8);
    }
  }
}
