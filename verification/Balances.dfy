/** Balances: one asset's with checked addition, every asset's with saturating addition. */
module Balances {
  import opened Bytes
  import opened Pagination

  /** Counted only when it is a transfer and, unless partial holdings count, held by one address and
      unlocked. */
  predicate Qualifies(x: Utxo, partial: bool, now: u64) {
    x.out.SecpTransfer? && (partial || (|x.out.owners.addrs| == 1 && x.out.owners.locktime <= now))
  }

  predicate Counts(x: Utxo, asset: Id, partial: bool, now: u64) {
    x.assetId == asset && Qualifies(x, partial, now)
  }

  /** The true sum of what counts. */
  function Total(xs: seq<Utxo>, asset: Id, partial: bool, now: u64): nat {
    if xs == [] then 0
    else
      var x := xs[|xs| - 1];
      Total(xs[..|xs| - 1], asset, partial, now) + if Counts(x, asset, partial, now) then x.out.amt else 0
  }

  function Counted(xs: seq<Utxo>, asset: Id, partial: bool, now: u64): seq<(Id, u32)> {
    if xs == [] then []
    else
      var x := xs[|xs| - 1];
      Counted(xs[..|xs| - 1], asset, partial, now)
      + if Counts(x, asset, partial, now) then [(x.txId, x.outputIndex)] else []
  }

  ghost predicate SomeCounts(xs: seq<Utxo>, asset: Id, partial: bool, now: u64) {
    exists i :: 0 <= i < |xs| && Counts(xs[i], asset, partial, now)
  }

  lemma {:induction false} TotalMonotone(xs: seq<Utxo>, i: nat, asset: Id, partial: bool, now: u64)
    requires i <= |xs|
    ensures Total(xs[..i], asset, partial, now) <= Total(xs, asset, partial, now)
    decreases |xs|
  {
    if i < |xs| {
      var n := |xs| - 1;
      TotalMonotone(xs[..n], i, asset, partial, now);
      assert xs[..n][..i] == xs[..i];
    } else {
      assert xs[..i] == xs;
    }
  }

  datatype Reply = Balance(balance: u64, utxoIds: seq<(Id, u32)>) | Overflow | Unavailable(id: Id)

  function OneReply(xs: seq<Utxo>, asset: Id, partial: bool, now: u64): Reply {
    var total := Total(xs, asset, partial, now);
    if total > U64_MAX then Overflow else Balance(total, Counted(xs, asset, partial, now))
  }

  /** The running sum overflows exactly when the whole sum does. */
  method SumBalance(xs: seq<Utxo>, asset: Id, partial: bool, now: u64) returns (r: Reply)
    ensures r == OneReply(xs, asset, partial, now)
  {
    var balance: u64 := 0;
    var ids: seq<(Id, u32)> := [];
    var i := 0;
    while i < |xs|
      invariant i <= |xs| && balance == Total(xs[..i], asset, partial, now)
      invariant ids == Counted(xs[..i], asset, partial, now)
    {
      var x := xs[i];
      assert xs[..i + 1][..i] == xs[..i];
      if x.assetId != asset || !x.out.SecpTransfer? {
        i := i + 1;
        continue;
      }
      var owners := x.out.owners;
      if !partial && (|owners.addrs| != 1 || owners.locktime > now) {
        i := i + 1;
        continue;
      }
      if balance + x.out.amt > U64_MAX {
        TotalMonotone(xs, i + 1, asset, partial, now);
        return Overflow;
      }
      balance := balance + x.out.amt;
      ids := ids + [(x.txId, x.outputIndex)];
      i := i + 1;
    }
    assert xs[..i] == xs;
    r := Balance(balance, ids);
  }

  function Saturate(n: nat): u64 {
    if n > U64_MAX then U64_MAX else n
  }

  /** Every asset with something that counts, and its saturated sum. */
  ghost predicate IsAllReply(xs: seq<Utxo>, partial: bool, now: u64, balances: map<Id, u64>) {
    && (forall asset: Id :: asset in balances <==> SomeCounts(xs, asset, partial, now))
    && (forall asset: Id :: asset in balances ==> balances[asset] == Saturate(Total(xs, asset, partial, now)))
  }

  method SumAllBalances(xs: seq<Utxo>, partial: bool, now: u64) returns (balances: map<Id, u64>)
    ensures IsAllReply(xs, partial, now, balances)
  {
    hide SomeCounts;
    balances := map[];
    NothingCounts(partial, now);
    var i := 0;
    while i < |xs|
      invariant i <= |xs| && IsAllReply(xs[..i], partial, now, balances)
    {
      var x := xs[i];
      ghost var next := xs[..i + 1];
      assert next[..i] == xs[..i] && next[i] == x;
      forall asset: Id { SomeCountsSnoc(xs[..i], x, asset, partial, now); }
      assert next == xs[..i] + [x];
      if x.out.SecpTransfer? && (partial || (|x.out.owners.addrs| == 1 && x.out.owners.locktime <= now)) {
        if x.assetId !in balances { NoneCount(xs[..i], x.assetId, partial, now); }
        var entry := if x.assetId in balances then balances[x.assetId] else 0;
        balances := balances[x.assetId := Saturate(entry + x.out.amt)];
      }
      i := i + 1;
    }
    assert xs[..i] == xs;
  }

  lemma NothingCounts(partial: bool, now: u64)
    ensures forall asset: Id :: !SomeCounts([], asset, partial, now)
  {
  }

  lemma SomeCountsSnoc(xs: seq<Utxo>, x: Utxo, asset: Id, partial: bool, now: u64)
    ensures SomeCounts(xs + [x], asset, partial, now)
       <==> SomeCounts(xs, asset, partial, now) || Counts(x, asset, partial, now)
  {
    if SomeCounts(xs, asset, partial, now) {
      var i :| 0 <= i < |xs| && Counts(xs[i], asset, partial, now);
      assert (xs + [x])[i] == xs[i];
    }
    assert (xs + [x])[|xs|] == x;
  }

  lemma {:induction false} NoneCount(xs: seq<Utxo>, asset: Id, partial: bool, now: u64)
    requires !SomeCounts(xs, asset, partial, now)
    ensures Total(xs, asset, partial, now) == 0
  {
    if xs != [] {
      var n := |xs| - 1;
      assert xs == xs[..n] + [xs[n]];
      SomeCountsSnoc(xs[..n], xs[n], asset, partial, now);
      NoneCount(xs[..n], asset, partial, now);
    }
  }

  /** One address's holdings: its stored UTXOs, each once, the empty id left out. */
  function Holdings(st: Chain, addr: ShortId): seq<Utxo>
    requires AllStored(st, Reached(st, addr))
  {
    Fetched(st, Reached(st, addr))
  }

  method GetBalance(st: Chain, addr: ShortId, asset: Id, partial: bool, now: u64) returns (r: Reply)
    requires Indexed(st) && |IdsOf(st, addr)| < USIZE_MAX
    ensures AllStored(st, Reached(st, addr)) ==> r == OneReply(Holdings(st, addr), asset, partial, now)
    ensures !AllStored(st, Reached(st, addr)) ==> r.Unavailable? && r.id in Reached(st, addr) && r.id !in st.utxos
  {
    var utxos := GetAllUtxos(st, [addr]);
    AllOfOneAddress(st, addr);
    if utxos.Missing? { return Unavailable(utxos.id); }
    r := SumBalance(utxos.value, asset, partial, now);
  }

  method GetAllBalances(st: Chain, addr: ShortId, partial: bool, now: u64) returns (r: Result<map<Id, u64>>)
    requires Indexed(st) && |IdsOf(st, addr)| < USIZE_MAX
    ensures AllStored(st, Reached(st, addr)) ==> r.Ok? && IsAllReply(Holdings(st, addr), partial, now, r.value)
    ensures !AllStored(st, Reached(st, addr)) ==> r.Missing? && r.id in Reached(st, addr) && r.id !in st.utxos
  {
    var utxos := GetAllUtxos(st, [addr]);
    AllOfOneAddress(st, addr);
    if utxos.Missing? { return Missing(utxos.id); }
    var balances := SumAllBalances(utxos.value, partial, now);
    r := Ok(balances);
  }

  /** The two replies agree on every asset: the same figure when the sum fits, an error against the maximum
      when it does not, and no entry exactly where nothing counts, which the first reports as 0. */
  lemma BalancesAgree(xs: seq<Utxo>, asset: Id, partial: bool, now: u64, all: map<Id, u64>)
    requires IsAllReply(xs, partial, now, all)
    ensures var one := OneReply(xs, asset, partial, now);
            && (one.Balance? <==> Total(xs, asset, partial, now) <= U64_MAX)
            && (one.Balance? && asset in all ==> all[asset] == one.balance)
            && (one.Overflow? ==> asset in all && all[asset] == U64_MAX)
            && (asset !in all ==> one == Balance(0, []))
  {
    if !SomeCounts(xs, asset, partial, now) {
      NoneCount(xs, asset, partial, now);
      NoneCounted(xs, asset, partial, now);
    }
  }

  lemma {:induction false} NoneCounted(xs: seq<Utxo>, asset: Id, partial: bool, now: u64)
    requires !SomeCounts(xs, asset, partial, now)
    ensures Counted(xs, asset, partial, now) == []
  {
    if xs != [] {
      var n := |xs| - 1;
      assert xs == xs[..n] + [xs[n]];
      SomeCountsSnoc(xs[..n], xs[n], asset, partial, now);
      NoneCounted(xs[..n], asset, partial, now);
    }
  }

  // ----- what one UTXO adds -----

  lemma {:induction false} SumsConcat(xs: seq<Utxo>, ys: seq<Utxo>, asset: Id, partial: bool, now: u64)
    ensures Total(xs + ys, asset, partial, now) == Total(xs, asset, partial, now) + Total(ys, asset, partial, now)
    ensures Counted(xs + ys, asset, partial, now) == Counted(xs, asset, partial, now) + Counted(ys, asset, partial, now)
    decreases |ys|
  {
    if ys == [] {
      assert xs + ys == xs;
    } else {
      var n := |ys| - 1;
      assert (xs + ys)[..|xs| + n] == xs + ys[..n] && (xs + ys)[|xs| + n] == ys[n];
      SumsConcat(xs, ys[..n], asset, partial, now);
    }
  }

  /** The amount that one UTXO adds to the balance of an asset: none for another asset or another kind of output; all of
      it where partial holdings count; and otherwise all of it if one address holds it and its locktime is over, and
      none if it is shared or locked. */
  lemma UtxoAdds(xs: seq<Utxo>, x: Utxo, ys: seq<Utxo>, asset: Id, partial: bool, now: u64) returns (amount: nat)
    ensures Total(xs + [x] + ys, asset, partial, now) == Total(xs + ys, asset, partial, now) + amount
    ensures x.assetId != asset || x.out.OtherOutput? ==> amount == 0
    ensures x.assetId == asset && x.out.SecpTransfer? && partial ==> amount == x.out.amt
    ensures x.assetId == asset && x.out.SecpTransfer? && !partial ==>
              amount == if |x.out.owners.addrs| != 1 || now < x.out.owners.locktime then 0 else x.out.amt
  {
    amount := Total([x], asset, partial, now);
    assert [x][..0] == [];
    SumsConcat(xs + [x], ys, asset, partial, now);
    SumsConcat(xs, [x], asset, partial, now);
    SumsConcat(xs, ys, asset, partial, now);
  }

  /** Its id is listed, in its place, in the same cases, even for an amount of zero. */
  lemma UtxoListed(xs: seq<Utxo>, x: Utxo, ys: seq<Utxo>, asset: Id, partial: bool, now: u64) returns (listed: bool)
    ensures var (before, after) := (Counted(xs, asset, partial, now), Counted(ys, asset, partial, now));
            Counted(xs + [x] + ys, asset, partial, now)
            == before + (if listed then [(x.txId, x.outputIndex)] else []) + after
    ensures x.assetId != asset || x.out.OtherOutput? ==> !listed
    ensures x.assetId == asset && x.out.SecpTransfer? && partial ==> listed
    ensures x.assetId == asset && x.out.SecpTransfer? && !partial ==>
              (listed <==> |x.out.owners.addrs| == 1 && x.out.owners.locktime <= now)
  {
    listed := Counted([x], asset, partial, now) != [];
    assert [x][..0] == [];
    SumsConcat(xs + [x], ys, asset, partial, now);
    SumsConcat(xs, [x], asset, partial, now);
  }
}
