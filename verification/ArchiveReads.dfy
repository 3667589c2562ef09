/** What an archive read answers, in the operations of the batches alone. */
module ArchiveReads {
  import opened Bytes
  import opened ArchiveKeys
  import opened Archive

  /** Operation j of batch i is on the key, in a batch at or below the height. */
  predicate Touches(history: seq<Batch>, key: Slice, height: u64, i: nat, j: nat) {
    i < |history| && history[i].height <= height && j < |history[i].ops| && history[i].ops[j].key == key
  }

  /** Operation b of batch a is older: in a lower batch, or in one at the same height and issued before. */
  predicate Older(history: seq<Batch>, a: nat, b: nat, i: nat, j: nat)
    requires a < |history| && i < |history|
  {
    || history[a].height < history[i].height
    || (history[a].height == history[i].height && (a < i || (a == i && b < j)))
  }

  /** Operation j of batch i is the newest on the key as of the height. */
  ghost predicate NewestOp(history: seq<Batch>, key: Slice, height: u64, i: nat, j: nat) {
    && Touches(history, key, height, i, j)
    && forall a: nat, b: nat :: Touches(history, key, height, a, b) && (a, b) != (i, j) ==> Older(history, a, b, i, j)
  }

  // ----- operations and the log -----

  /** Where the log has operation j of batch i. */
  function Position(history: seq<Batch>, i: nat, j: nat): nat
    requires i <= |history|
  {
    |LogOf(history[..i])| + j
  }

  lemma {:induction false} WritesAt(ops: seq<Op>, height: u64, j: nat)
    ensures |WritesOf(ops, height)| == |ops|
    ensures j < |ops| ==> WritesOf(ops, height)[j] == WriteOf(ops[j], height)
  {
    if ops != [] { WritesAt(ops[..|ops| - 1], height, j); }
  }

  lemma {:induction false} LogAt(history: seq<Batch>, i: nat, j: nat)
    requires i < |history| && j < |history[i].ops|
    ensures Position(history, i, j) < |LogOf(history)|
    ensures LogOf(history)[Position(history, i, j)] == WriteOf(history[i].ops[j], history[i].height)
  {
    var n := |history| - 1;
    WritesAt(history[n].ops, history[n].height, j);
    if i < n {
      assert history[..n][..i] == history[..i];
      LogAt(history[..n], i, j);
    }
  }

  lemma {:induction false} LogFrom(history: seq<Batch>, n: nat) returns (i: nat, j: nat)
    requires n < |LogOf(history)|
    ensures i < |history| && j < |history[i].ops| && n == Position(history, i, j)
  {
    var m := |history| - 1;
    WritesAt(history[m].ops, history[m].height, 0);
    if n < |LogOf(history[..m])| {
      i, j := LogFrom(history[..m], n);
      assert history[..m][..i] == history[..i];
    } else {
      i, j := m, n - |LogOf(history[..m])|;
    }
  }

  lemma {:induction false} PositionsRise(history: seq<Batch>, a: nat, b: nat, i: nat)
    requires a < i <= |history| && b < |history[a].ops|
    ensures Position(history, a, b) < |LogOf(history[..i])|
  {
    assert history[..i][..i - 1] == history[..i - 1];
    if a < i - 1 {
      PositionsRise(history, a, b, i - 1);
    } else {
      WritesAt(history[a].ops, history[a].height, 0);
    }
  }

  lemma PositionsOrdered(history: seq<Batch>, a: nat, b: nat, i: nat, j: nat)
    requires a < |history| && i < |history| && b < |history[a].ops| && j < |history[i].ops|
    ensures Position(history, a, b) <= Position(history, i, j) <==> a < i || (a == i && b <= j)
  {
    if a < i {
      PositionsRise(history, a, b, i);
    } else if i < a {
      PositionsRise(history, i, j, a);
    }
  }

  // ----- reads -----

  lemma NewestOpIsNewest(history: seq<Batch>, key: Slice, height: u64, i: nat, j: nat)
    requires NewestOp(history, key, height, i, j)
    ensures IsNewest(LogOf(history), key, height, Position(history, i, j))
  {
    var log, n := LogOf(history), Position(history, i, j);
    LogAt(history, i, j);
    forall m | 0 <= m < |log| && Visible(log[m], key, height)
      ensures log[m].height < log[n].height || (log[m].height == log[n].height && m <= n)
    {
      var a, b := LogFrom(history, m);
      LogAt(history, a, b);
      assert Touches(history, key, height, a, b);
      PositionsOrdered(history, a, b, i, j);
    }
  }

  /** A key touched as of a height has a newest operation. */
  lemma SomeNewestOp(history: seq<Batch>, key: Slice, height: u64, a: nat, b: nat) returns (i: nat, j: nat)
    requires Touches(history, key, height, a, b)
    ensures NewestOp(history, key, height, i, j)
  {
    var log := LogOf(history);
    LogAt(history, a, b);
    var n := Newest(log, key, height);
    assert Visible(log[Position(history, a, b)], key, height);
    i, j := LogFrom(history, n.value);
    LogAt(history, i, j);
    forall c: nat, d: nat | Touches(history, key, height, c, d) && (c, d) != (i, j) ensures Older(history, c, d, i, j) {
      LogAt(history, c, d);
      assert Visible(log[Position(history, c, d)], key, height);
      PositionsOrdered(history, c, d, i, j);
    }
  }

  /** Where no operation touches the key as of the height, every read answers that nothing is there. */
  lemma UntouchedReads(history: seq<Batch>, key: Slice, height: u64)
    requires forall i: nat, j: nat :: !Touches(history, key, height, i, j)
    ensures EntryAt(StateOf(history), key, height) == Err(NotFound)
    ensures ValueAt(StateOf(history), key, height) == Err(NotFound)
    ensures HeightAt(StateOf(history), key, height) == Err(NotFound)
    ensures PresentAt(StateOf(history), key, height) == Ok(false)
  {
    VersionedRead(history, key, height);
    var n := Newest(LogOf(history), key, height);
    if n.Some? {
      var i, j := LogFrom(history, n.value);
      LogAt(history, i, j);
      assert Touches(history, key, height, i, j);
    }
  }

  lemma NewestIsOne(log: seq<Write>, key: Slice, height: u64, n: nat)
    requires IsNewest(log, key, height, n)
    ensures Newest(log, key, height) == Some(n)
  {
    hide Newest;
    var r := Newest(log, key, height);
    assert r.Some?;
    assert Visible(log[r.value], key, height) && Visible(log[n], key, height);
  }

  /** The newest operation is what a read finds. */
  lemma NewestOpReads(history: seq<Batch>, key: Slice, height: u64, i: nat, j: nat)
    requires NewestOp(history, key, height, i, j)
    ensures i < |history| && j < |history[i].ops|
    ensures EntryAt(StateOf(history), key, height)
         == match history[i].ops[j]
            case PutOp(_, value) => Ok((value, history[i].height, true))
            case DeleteOp(_) => Ok(([], history[i].height, false))
  {
    NewestOpIsNewest(history, key, height, i, j);
    NewestIsOne(LogOf(history), key, height, Position(history, i, j));
    hide NewestOp, IsNewest, Newest, EntryAt, StateOf, LogOf, Position;
    LogAt(history, i, j);
    VersionedRead(history, key, height);
  }

  /** Where the newest operation as of the height is a put, reads answer its value and its batch's height. */
  lemma PutReads(history: seq<Batch>, key: Slice, height: u64, i: nat, j: nat, value: bytes)
    requires NewestOp(history, key, height, i, j) && history[i].ops[j] == PutOp(key, value)
    ensures EntryAt(StateOf(history), key, height) == Ok((value, history[i].height, true))
    ensures ValueAt(StateOf(history), key, height) == Ok(value)
    ensures HeightAt(StateOf(history), key, height) == Ok(history[i].height)
    ensures PresentAt(StateOf(history), key, height) == Ok(true)
  {
    hide NewestOp, EntryAt, StateOf;
    NewestOpReads(history, key, height, i, j);
  }

  /** Where it is a deletion, the entry is a tombstone at its batch's height, and reads answer that nothing is there. */
  lemma DeleteReads(history: seq<Batch>, key: Slice, height: u64, i: nat, j: nat)
    requires NewestOp(history, key, height, i, j) && history[i].ops[j] == DeleteOp(key)
    ensures EntryAt(StateOf(history), key, height) == Ok(([], history[i].height, false))
    ensures ValueAt(StateOf(history), key, height) == Err(NotFound)
    ensures HeightAt(StateOf(history), key, height) == Err(NotFound)
    ensures PresentAt(StateOf(history), key, height) == Ok(false)
  {
    hide NewestOp, EntryAt, StateOf;
    NewestOpReads(history, key, height, i, j);
  }
}
