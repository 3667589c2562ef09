/** The transaction mempool: insertion-ordered, bounded in bytes, and free of conflicts. */
module TxPool {
  import opened Bytes

  const MAX_TX_SIZE: nat := 64 * 1024
  const MAX_MEMPOOL_SIZE: nat := 64 * 1024 * 1024

  type Id = nat

  datatype Tx = Tx(id: Id, size: nat, inputs: seq<Id>)

  datatype Error = DuplicateTx | TxTooLarge | MempoolFull | ConflictsWithOtherTx

  // ----- insertion-ordered maps -----

  type Linked<V> = seq<(Id, V)>

  predicate HasKey<V>(m: Linked<V>, k: Id) {
    exists i :: 0 <= i < |m| && m[i].0 == k
  }

  function Delete<V>(m: Linked<V>, k: Id): Linked<V> {
    if m == [] then [] else if m[0].0 == k then m[1..] else [m[0]] + Delete(m[1..], k)
  }

  /** Putting an existing key moves it to the back. */
  function PutBack<V>(m: Linked<V>, k: Id, v: V): Linked<V> {
    Delete(m, k) + [(k, v)]
  }

  lemma {:induction false} DeleteAbsent<V>(m: Linked<V>, k: Id)
    requires !HasKey(m, k)
    ensures Delete(m, k) == m
  {
    if m != [] {
      forall i | 0 <= i < |m[1..]| ensures m[1..][i].0 != k { assert m[i + 1].0 != k; }
      DeleteAbsent(m[1..], k);
    }
  }

  // ----- the pool -----

  /** What the pool holds: transactions and the inputs they consume, by id, and the bytes left. */
  datatype Pool = Pool(unissued: Linked<Tx>, consumed: Linked<set<Id>>, available: nat)

  function InputSet(tx: Tx): set<Id> {
    set u | u in tx.inputs
  }

  predicate HasOverlap(m: Linked<set<Id>>, inputs: set<Id>) {
    exists i :: 0 <= i < |m| && m[i].1 * inputs != {}
  }

  function Refusal(p: Pool, tx: Tx): Option<Error> {
    if HasKey(p.unissued, tx.id) then Some(DuplicateTx)
    else if tx.size > MAX_TX_SIZE then Some(TxTooLarge)
    else if tx.size > p.available then Some(MempoolFull)
    else if HasOverlap(p.consumed, InputSet(tx)) then Some(ConflictsWithOtherTx)
    else None
  }

  function DoAdd(p: Pool, tx: Tx): Pool {
    if Refusal(p, tx).Some? then p
    else Pool(PutBack(p.unissued, tx.id, tx), PutBack(p.consumed, tx.id, InputSet(tx)), p.available - tx.size)
  }

  function Find(m: Linked<Tx>, k: Id): Option<Tx> {
    if m == [] then None else if m[0].0 == k then Some(m[0].1) else Find(m[1..], k)
  }

  function SatSub(a: nat, b: nat): nat {
    if a >= b then a - b else 0
  }

  function Min(a: nat, b: nat): nat {
    if a < b then a else b
  }

  function DoRemove(p: Pool, k: Id): Pool {
    match Find(p.unissued, k)
    case None => p
    case Some(tx) =>
      Pool(Delete(p.unissued, k), Delete(p.consumed, k), Min(p.available + tx.size, MAX_MEMPOOL_SIZE))
  }

  function Txs(m: Linked<Tx>): (r: seq<Tx>)
    ensures |r| == |m| && forall i :: 0 <= i < |m| ==> r[i] == m[i].1
  {
    if m == [] then [] else [m[0].1] + Txs(m[1..])
  }

  /** The pool as it runs. */
  class Mempool {
    var unissued: Linked<Tx>
    var consumed: Linked<set<Id>>
    var available: nat

    function State(): Pool
      reads this
    {
      Pool(unissued, consumed, available)
    }

    constructor New()
      ensures State() == Pool([], [], MAX_MEMPOOL_SIZE)
    {
      unissued, consumed, available := [], [], MAX_MEMPOOL_SIZE;
    }

    constructor WithBudget(bytes: nat)
      ensures State() == Pool([], [], bytes)
    {
      unissued, consumed, available := [], [], bytes;
    }

    /** A refused transaction changes nothing. */
    method Add(tx: Tx) returns (e: Option<Error>)
      modifies this
      ensures e == Refusal(old(State()), tx) && State() == DoAdd(old(State()), tx)
    {
      if HasKey(unissued, tx.id) { return Some(DuplicateTx); }
      if tx.size > MAX_TX_SIZE { return Some(TxTooLarge); }
      if tx.size > available { return Some(MempoolFull); }
      var inputs := InputSet(tx);
      var overlap := Overlaps(inputs);
      if overlap { return Some(ConflictsWithOtherTx); }
      available := SatSub(available, tx.size);
      consumed := PutBack(consumed, tx.id, inputs);
      unissued := PutBack(unissued, tx.id, tx);
      e := None;
    }

    method Overlaps(inputs: set<Id>) returns (b: bool)
      ensures b == HasOverlap(consumed, inputs)
    {
      if inputs == {} {
        return false;
      }
      var i := 0;
      while i < |consumed|
        invariant i <= |consumed| && forall j :: 0 <= j < i ==> consumed[j].1 * inputs == {}
      {
        if consumed[i].1 * inputs != {} { return true; }
        i := i + 1;
      }
      b := false;
    }

    method Remove(k: Id) returns (r: Option<Tx>)
      modifies this
      ensures r == Find(old(unissued), k) && State() == DoRemove(old(State()), k)
    {
      r := Find(unissued, k);
      if r.None? { return; }
      unissued := Delete(unissued, k);
      consumed := Delete(consumed, k);
      available := Min(available + r.value.size, MAX_MEMPOOL_SIZE);
    }

    method Peek() returns (r: Option<Tx>)
      ensures r == if unissued == [] then None else Some(Txs(unissued)[0])
    {
      r := if unissued == [] then None else Some(unissued[0].1);
    }

    method Snapshot() returns (r: seq<Tx>)
      ensures r == Txs(unissued)
    {
      r := [];
      var i := 0;
      while i < |unissued|
        invariant i <= |unissued| && |r| == i && forall j :: 0 <= j < i ==> r[j] == unissued[j].1
      {
        r := r + [unissued[i].1];
        i := i + 1;
      }
    }
  }

  // ----- what every operation keeps -----

  function Sizes(txs: seq<Tx>): nat {
    if txs == [] then 0 else Sizes(txs[..|txs| - 1]) + txs[|txs| - 1].size
  }

  /** The two maps hold the transactions under their ids, once each, with their inputs. */
  ghost predicate Keyed(p: Pool, txs: seq<Tx>) {
    && |p.unissued| == |p.consumed| == |txs|
    && (forall i :: 0 <= i < |txs| ==> p.unissued[i] == (txs[i].id, txs[i]))
    && (forall i :: 0 <= i < |txs| ==> p.consumed[i] == (txs[i].id, InputSet(txs[i])))
  }

  ghost predicate Apart(a: Tx, b: Tx) {
    InputSet(a) * InputSet(b) == {}
  }

  ghost predicate ConflictFree(txs: seq<Tx>) {
    && (forall i, j :: 0 <= i < j < |txs| ==> txs[i].id != txs[j].id)
    && (forall i, j :: 0 <= i < j < |txs| ==> Apart(txs[i], txs[j]))
    && (forall i :: 0 <= i < |txs| ==> txs[i].size <= MAX_TX_SIZE)
  }

  ghost predicate Consistent(p: Pool) {
    Keyed(p, Txs(p.unissued)) && ConflictFree(Txs(p.unissued))
  }

  lemma TxsAre(p: Pool, txs: seq<Tx>)
    requires Keyed(p, txs)
    ensures Txs(p.unissued) == txs
  {
  }

  /** A transaction counts as a duplicate exactly when a pooled one has its id. */
  lemma DuplicateMeans(p: Pool, tx: Tx)
    requires Consistent(p)
    ensures HasKey(p.unissued, tx.id) <==> exists x :: x in Txs(p.unissued) && x.id == tx.id
  {
    var txs := Txs(p.unissued);
    if exists x :: x in txs && x.id == tx.id {
      var i :| 0 <= i < |txs| && txs[i].id == tx.id;
      assert p.unissued[i].0 == tx.id;
    }
    if HasKey(p.unissued, tx.id) {
      var i :| 0 <= i < |p.unissued| && p.unissued[i].0 == tx.id;
      assert txs[i] in txs;
    }
  }

  ghost predicate Shares(a: Tx, b: Tx) {
    exists u :: u in a.inputs && u in b.inputs
  }

  /** It conflicts exactly when it shares an input with a pooled one. */
  lemma ConflictMeans(p: Pool, tx: Tx)
    requires Consistent(p)
    ensures HasOverlap(p.consumed, InputSet(tx)) <==> exists x :: x in Txs(p.unissued) && Shares(x, tx)
  {
    var txs := Txs(p.unissued);
    if exists x :: x in txs && Shares(x, tx) {
      var x :| x in txs && Shares(x, tx);
      var i :| 0 <= i < |txs| && txs[i] == x;
      SharesIsOverlap(x, tx);
      assert p.consumed[i].1 * InputSet(tx) != {};
    }
    if HasOverlap(p.consumed, InputSet(tx)) {
      var i :| 0 <= i < |p.consumed| && p.consumed[i].1 * InputSet(tx) != {};
      SharesIsOverlap(txs[i], tx);
      assert txs[i] in txs;
    }
  }

  lemma SharesIsOverlap(a: Tx, b: Tx)
    ensures Shares(a, b) <==> InputSet(a) * InputSet(b) != {}
  {
    if Shares(a, b) {
      var u :| u in a.inputs && u in b.inputs;
      assert u in InputSet(a) * InputSet(b);
    }
    if InputSet(a) * InputSet(b) != {} {
      var u :| u in InputSet(a) * InputSet(b);
    }
  }

  lemma AddKeeps(p: Pool, tx: Tx)
    requires Consistent(p)
    ensures Consistent(DoAdd(p, tx))
    ensures Txs(DoAdd(p, tx).unissued) == if Refusal(p, tx).Some? then Txs(p.unissued) else Txs(p.unissued) + [tx]
  {
    hide Delete, InputSet, Txs;
    if Refusal(p, tx).None? {
      var txs := Txs(p.unissued);
      DeleteAbsent(p.unissued, tx.id);
      forall i | 0 <= i < |p.consumed| ensures p.consumed[i].0 != tx.id { assert p.unissued[i].0 != tx.id; }
      DeleteAbsent(p.consumed, tx.id);
      TxsAre(DoAdd(p, tx), txs + [tx]);
      forall i | 0 <= i < |txs| ensures txs[i].id != tx.id && Apart(txs[i], tx) {
        assert p.unissued[i].0 != tx.id && p.consumed[i].1 * InputSet(tx) == {};
      }
    }
  }

  /** The transactions that do not have the id. */
  function Without(txs: seq<Tx>, k: Id): seq<Tx> {
    if txs == [] then []
    else Without(txs[..|txs| - 1], k) + if txs[|txs| - 1].id == k then [] else [txs[|txs| - 1]]
  }

  lemma WithoutSnoc(txs: seq<Tx>, tx: Tx, k: Id)
    ensures Without(txs + [tx], k) == Without(txs, k) + if tx.id == k then [] else [tx]
  {
    assert (txs + [tx])[..|txs|] == txs;
  }

  lemma {:induction false} WithoutAbsent(txs: seq<Tx>, k: Id)
    requires forall i :: 0 <= i < |txs| ==> txs[i].id != k
    ensures Without(txs, k) == txs
  {
    if txs != [] {
      var n := |txs| - 1;
      WithoutAbsent(txs[..n], k);
      assert txs == txs[..n] + [txs[n]];
    }
  }

  lemma {:induction false} WithoutOne(txs: seq<Tx>, i: nat)
    requires i < |txs| && forall j :: 0 <= j < |txs| && j != i ==> txs[j].id != txs[i].id
    ensures Without(txs, txs[i].id) == txs[..i] + txs[i + 1..]
  {
    var n := |txs| - 1;
    if i == n {
      WithoutAbsent(txs[..n], txs[n].id);
    } else {
      assert txs[..n][i] == txs[i];
      WithoutOne(txs[..n], i);
      assert txs[i + 1..] == txs[..n][i + 1..] + [txs[n]];
    }
  }

  lemma {:induction false} DeleteAt<V>(m: Linked<V>, i: nat)
    requires i < |m| && forall j :: 0 <= j < i ==> m[j].0 != m[i].0
    ensures Delete(m, m[i].0) == m[..i] + m[i + 1..]
  {
    if i > 0 {
      assert m[1..][i - 1] == m[i];
      forall j | 0 <= j < i - 1 ensures m[1..][j].0 != m[i].0 { assert m[j + 1].0 != m[i].0; }
      DeleteAt(m[1..], i - 1);
      assert m[..i] == [m[0]] + m[1..][..i - 1];
    }
  }

  lemma {:induction false} FindAt(m: Linked<Tx>, i: nat)
    requires i < |m| && forall j :: 0 <= j < i ==> m[j].0 != m[i].0
    ensures Find(m, m[i].0) == Some(m[i].1)
  {
    if i > 0 {
      assert m[1..][i - 1] == m[i];
      forall j | 0 <= j < i - 1 ensures m[1..][j].0 != m[i].0 { assert m[j + 1].0 != m[i].0; }
      FindAt(m[1..], i - 1);
    }
  }

  lemma {:induction false} FindAbsent(m: Linked<Tx>, k: Id)
    requires !HasKey(m, k)
    ensures Find(m, k) == None
  {
    if m != [] {
      forall i | 0 <= i < |m[1..]| ensures m[1..][i].0 != k { assert m[i + 1].0 != k; }
      FindAbsent(m[1..], k);
    }
  }

  lemma RemoveKeeps(p: Pool, k: Id)
    requires Consistent(p)
    ensures Consistent(DoRemove(p, k))
    ensures Txs(DoRemove(p, k).unissued) == Without(Txs(p.unissued), k)
    ensures match Find(p.unissued, k)
            case None => forall x :: x in Txs(p.unissued) ==> x.id != k
            case Some(tx) => tx.id == k && Sizes(Without(Txs(p.unissued), k)) + tx.size == Sizes(Txs(p.unissued))
  {
    var txs := Txs(p.unissued);
    if HasKey(p.unissued, k) {
      var i :| 0 <= i < |p.unissued| && p.unissued[i].0 == k;
      RemoveAt(p, i);
    } else {
      FindAbsent(p.unissued, k);
      forall i | 0 <= i < |txs| ensures txs[i].id != k { assert p.unissued[i].0 != k; }
      WithoutAbsent(txs, k);
    }
  }

  lemma RemoveAt(p: Pool, i: nat)
    requires Consistent(p) && i < |p.unissued|
    ensures var (txs, k) := (Txs(p.unissued), p.unissued[i].0);
            && Find(p.unissued, k) == Some(txs[i]) && txs[i].id == k
            && Txs(DoRemove(p, k).unissued) == Without(txs, k) && Consistent(DoRemove(p, k))
            && Sizes(Without(txs, k)) + txs[i].size == Sizes(txs)
  {
    var txs := Txs(p.unissued);
    FindAt(p.unissued, i);
    WithoutOne(txs, i);
    SizesSplit(txs, i);
    KeyedWithout(p, txs, i);
    TxsAre(DoRemove(p, p.unissued[i].0), txs[..i] + txs[i + 1..]);
    StillConflictFree(txs, i);
  }

  lemma KeyedWithout(p: Pool, txs: seq<Tx>, i: nat)
    requires Keyed(p, txs) && ConflictFree(txs) && i < |txs|
    ensures Keyed(Pool(Delete(p.unissued, txs[i].id), Delete(p.consumed, txs[i].id), 0), txs[..i] + txs[i + 1..])
  {
    DeleteAt(p.unissued, i);
    DeleteAt(p.consumed, i);
  }

  lemma StillConflictFree(txs: seq<Tx>, i: nat)
    requires ConflictFree(txs) && i < |txs|
    ensures ConflictFree(txs[..i] + txs[i + 1..])
  {
  }

  lemma {:induction false} SizesSplit(txs: seq<Tx>, i: nat)
    requires i < |txs|
    ensures Sizes(txs) == Sizes(txs[..i] + txs[i + 1..]) + txs[i].size
  {
    var n := |txs| - 1;
    if i == n {
      assert txs[..i] + txs[i + 1..] == txs[..n];
    } else {
      SizesSplit(txs[..n], i);
      var rest := txs[..i] + txs[i + 1..];
      assert rest[..|rest| - 1] == txs[..n][..i] + txs[..n][i + 1..];
    }
  }

  // ----- every run -----

  datatype Event = Added(tx: Tx) | Removed(id: Id)

  function Step(p: Pool, e: Event): Pool {
    match e
    case Added(tx) => DoAdd(p, tx)
    case Removed(k) => DoRemove(p, k)
  }

  function Run(budget: nat, events: seq<Event>): Pool {
    if events == [] then Pool([], [], budget)
    else Step(Run(budget, events[..|events| - 1]), events[|events| - 1])
  }

  function Pooled(budget: nat, events: seq<Event>): seq<Tx> {
    Txs(Run(budget, events).unissued)
  }

  lemma NothingPooled(budget: nat)
    ensures Consistent(Pool([], [], budget)) && Txs(Pool([], [], budget).unissued) == []
  {
  }

  /** After any run the maps agree, no two pooled transactions share an id or an input, and the pool is
      within its budget. */
  lemma {:induction false} RunConsistent(budget: nat, events: seq<Event>)
    ensures Consistent(Run(budget, events))
    ensures Run(budget, events).available + Sizes(Pooled(budget, events)) <= budget
    ensures budget <= MAX_MEMPOOL_SIZE ==> Run(budget, events).available + Sizes(Pooled(budget, events)) == budget
  {
    hide Consistent, PutBack, Delete, InputSet;
    if events == [] {
      NothingPooled(budget);
    } else {
      var n := |events| - 1;
      var p := Run(budget, events[..n]);
      RunConsistent(budget, events[..n]);
      match events[n]
      case Added(tx) =>
        AddKeeps(p, tx);
        assert (Txs(p.unissued) + [tx])[..|p.unissued|] == Txs(p.unissued);
      case Removed(k) => RemoveKeeps(p, k);
    }
  }

  ghost predicate Conserves(budget: nat, events: seq<Event>) {
    Run(budget, events).available + Sizes(Pooled(budget, events)) == budget
  }

  /** Bytes left and bytes pooled add up to the budget after every run exactly when the budget is at most
      the standard one: above it, a removal's clamp loses the excess. */
  lemma ConservationIff(budget: nat)
    ensures (forall events :: Conserves(budget, events)) <==> budget <= MAX_MEMPOOL_SIZE
  {
    if budget <= MAX_MEMPOOL_SIZE {
      forall events ensures Conserves(budget, events) { RunConsistent(budget, events); }
    } else {
      var tx := Tx(0, 1, []);
      var e0: seq<Event> := [];
      var e1 := [Added(tx)];
      var e2 := [Added(tx), Removed(0)];
      assert e1[..0] == e0 && e2[..1] == e1;
      assert Run(budget, e0) == Pool([], [], budget);
      assert Delete<Tx>([], 0) == [] && Delete<set<Id>>([], 0) == [];
      assert Run(budget, e1) == Pool([(0, tx)], [(0, InputSet(tx))], budget - 1);
      assert Run(budget, e2).available == MAX_MEMPOOL_SIZE && Run(budget, e2).unissued == [];
      assert !Conserves(budget, e2);
    }
  }

  /** After any run, what is admitted: a new id, no over-long transaction, room in the budget for it beside
      the pooled ones, and no input in common with them. */
  lemma AdmittedIff(budget: nat, events: seq<Event>, tx: Tx)
    requires budget <= MAX_MEMPOOL_SIZE
    ensures Refusal(Run(budget, events), tx).None?
       <==> && (forall x :: x in Pooled(budget, events) ==> x.id != tx.id)
            && tx.size <= MAX_TX_SIZE && Sizes(Pooled(budget, events)) + tx.size <= budget
            && (forall x :: x in Pooled(budget, events) ==> !Shares(x, tx))
  {
    RunConsistent(budget, events);
    DuplicateMeans(Run(budget, events), tx);
    ConflictMeans(Run(budget, events), tx);
  }

  /** After any run, the error of a refusal by what is pooled: first a pooled transaction with the same id, then its
      size, then the room left beside the pooled ones, then an input in common with one of them. */
  lemma RefusalIs(budget: nat, events: seq<Event>, tx: Tx)
    ensures Refusal(Run(budget, events), tx)
         == if exists x :: x in Pooled(budget, events) && x.id == tx.id then Some(DuplicateTx)
            else if tx.size > 64 * 1024 then Some(TxTooLarge)
            else if tx.size > Run(budget, events).available then Some(MempoolFull)
            else if exists x :: x in Pooled(budget, events) && Shares(x, tx) then Some(ConflictsWithOtherTx)
            else None
    ensures Run(budget, events).available + Sizes(Pooled(budget, events)) <= budget
    ensures budget <= 64 * 1024 * 1024 ==>
              Run(budget, events).available == budget - Sizes(Pooled(budget, events))
  {
    RunConsistent(budget, events);
    DuplicateMeans(Run(budget, events), tx);
    ConflictMeans(Run(budget, events), tx);
  }

  // ----- first in, first out -----

  /** The i-th event added a transaction that has not been removed since. */
  ghost predicate Live(budget: nat, events: seq<Event>, i: nat)
    requires i < |events|
  {
    && events[i].Added? && Refusal(Run(budget, events[..i]), events[i].tx).None?
    && forall j :: i < j < |events| ==> events[j] != Removed(events[i].tx.id)
  }

  ghost function Survivors(budget: nat, events: seq<Event>, n: nat): seq<Tx>
    requires n <= |events|
  {
    if n == 0 then []
    else Survivors(budget, events, n - 1) + if Live(budget, events, n - 1) then [events[n - 1].tx] else []
  }

  lemma {:induction false} SurvivorsMore(budget: nat, events: seq<Event>, e: Event, n: nat)
    requires n <= |events|
    ensures Survivors(budget, events + [e], n)
         == if e.Added? then Survivors(budget, events, n) else Without(Survivors(budget, events, n), e.id)
  {
    hide Run, Refusal;
    if n > 0 {
      SurvivorsMore(budget, events, e, n - 1);
      var all := events + [e];
      assert all[..n - 1] == events[..n - 1] && all[n - 1] == events[n - 1];
      LiveMore(budget, events, e, n - 1);
      var s := Survivors(budget, events, n - 1);
      if Live(budget, events, n - 1) {
        if e.Removed? { WithoutSnoc(s, events[n - 1].tx, e.id); }
      } else {
        assert s + [] == s;
      }
    }
  }

  lemma LiveMore(budget: nat, events: seq<Event>, e: Event, i: nat)
    requires i < |events|
    ensures Live(budget, events + [e], i)
       <==> Live(budget, events, i) && e != Removed(events[i].tx.id)
  {
    var all := events + [e];
    assert all[..i] == events[..i] && all[|events|] == e;
    if Live(budget, all, i) {
      forall j | i < j < |events| ensures events[j] != Removed(events[i].tx.id) { assert all[j] == events[j]; }
    }
  }

  /** The pool holds, in the order they were added, exactly the transactions that were admitted and not
      removed since. */
  lemma {:induction false} PoolIsFifo(budget: nat, events: seq<Event>)
    ensures Pooled(budget, events) == Survivors(budget, events, |events|)
  {
    hide Consistent, PutBack, Delete, InputSet;
    if events != [] {
      var n := |events| - 1;
      var before, e := events[..n], events[n];
      assert events == before + [e];
      PoolIsFifo(budget, before);
      RunConsistent(budget, before);
      SurvivorsMore(budget, before, e, n);
      var p := Run(budget, before);
      match e
      case Added(tx) => AddKeeps(p, tx);
      case Removed(k) => RemoveKeeps(p, k);
    }
  }
}
