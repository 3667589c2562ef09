/** Exactly what a page holds and where it ends: the first occurrences in one ordered list of candidates, and the
    cursor of the last candidate searched. */
module PageContents {
  import opened Bytes
  import opened Pagination

  /** An address with each of its ids. */
  function Paired(addr: ShortId, ids: seq<Id>): seq<(ShortId, Id)> {
    seq(|ids|, i requires 0 <= i < |ids| => (addr, ids[i]))
  }

  /** All that lies past the cursor, address by address in the given order, ids ascending. */
  function Candidates(st: Chain, addrs: seq<ShortId>, cur: Cursor): seq<(ShortId, Id)> {
    if addrs == [] then []
    else if addrs[0] < cur.addr then Candidates(st, addrs[1..], cur)
    else Paired(addrs[0], After(IdsOf(st, addrs[0]), StartAt(addrs[0], cur))) + Candidates(st, addrs[1..], cur)
  }

  /** The ids of candidates, each where it first occurs. */
  function FirstSeen(c: seq<(ShortId, Id)>): seq<Id> {
    if c == [] then []
    else
      var before, u := FirstSeen(c[..|c| - 1]), c[|c| - 1].1;
      if u in before then before else before + [u]
  }

  /** The last given address at or after the cursor's, or the cursor's. */
  function EndAddr(addrs: seq<ShortId>, cur: Cursor): ShortId {
    if addrs == [] || addrs[|addrs| - 1] < cur.addr then cur.addr else addrs[|addrs| - 1]
  }

  function EndId(c: seq<(ShortId, Id)>, last: Id): Id {
    if c == [] then last else c[|c| - 1].1
  }

  // ----- the candidates -----

  /** Candidates are what lies past the cursor. */
  lemma {:induction false} CandidatesArePast(st: Chain, addrs: seq<ShortId>, cur: Cursor, a: ShortId, u: Id)
    ensures (a, u) in Candidates(st, addrs, cur) <==> Past(st, addrs, cur, a, u)
  {
    if addrs != [] {
      assert addrs == [addrs[0]] + addrs[1..];
      CandidatesArePast(st, addrs[1..], cur, a, u);
      if addrs[0] >= cur.addr {
        var ids := After(IdsOf(st, addrs[0]), StartAt(addrs[0], cur));
        PairedIn(addrs[0], ids, a, u);
        AfterIn(IdsOf(st, addrs[0]), StartAt(addrs[0], cur), u);
      }
    }
  }

  lemma PairedIn(addr: ShortId, ids: seq<Id>, a: ShortId, u: Id)
    ensures (a, u) in Paired(addr, ids) <==> a == addr && u in ids
  {
    if a == addr && u in ids {
      var i :| 0 <= i < |ids| && ids[i] == u;
      assert Paired(addr, ids)[i] == (a, u);
    }
  }

  /** They are in order of address, and then of id. */
  predicate Sooner(x: (ShortId, Id), y: (ShortId, Id)) {
    x.0 < y.0 || (x.0 == y.0 && x.1 < y.1)
  }

  lemma {:induction false} CandidatesInOrder(st: Chain, addrs: seq<ShortId>, cur: Cursor, i: nat, j: nat)
    requires Indexed(st) && Ascending(addrs) && i < j < |Candidates(st, addrs, cur)|
    ensures Sooner(Candidates(st, addrs, cur)[i], Candidates(st, addrs, cur)[j])
  {
    hide After, IdsOf;
    if addrs[0] < cur.addr {
      CandidatesInOrder(st, addrs[1..], cur, i, j);
    } else {
      var ids, rest := After(IdsOf(st, addrs[0]), StartAt(addrs[0], cur)), Candidates(st, addrs[1..], cur);
      assert Candidates(st, addrs, cur) == Paired(addrs[0], ids) + rest;
      hide Candidates;
      if i >= |ids| {
        CandidatesInOrder(st, addrs[1..], cur, i - |ids|, j - |ids|);
      } else if j >= |ids| {
        var (a, u) := rest[j - |ids|];
        assert (a, u) in rest;
        CandidatesArePast(st, addrs[1..], cur, a, u);
        LaterAddr(addrs, a);
      } else {
        AfterAscends(IdsOf(st, addrs[0]), StartAt(addrs[0], cur));
      }
    }
  }

  lemma LaterAddr(addrs: seq<ShortId>, a: ShortId)
    requires Ascending(addrs) && addrs != [] && a in addrs[1..]
    ensures addrs[0] < a <= addrs[|addrs| - 1]
  {
    var i :| 0 <= i < |addrs[1..]| && addrs[1..][i] == a;
    assert addrs[i + 1] == a;
  }

  /** Behind the first address, any cursor on it leaves the same candidates. */
  lemma {:induction false} SameBehind(st: Chain, addrs: seq<ShortId>, cur: Cursor, next: Cursor)
    requires forall a :: a in addrs ==> a > next.addr
    requires next.addr >= cur.addr
    ensures Candidates(st, addrs, next) == Candidates(st, addrs, cur)
  {
    if addrs != [] {
      assert addrs[0] in addrs;
      forall a | a in addrs[1..] ensures a > next.addr { assert a in addrs; }
      SameBehind(st, addrs[1..], cur, next);
    }
  }

  // ----- one address -----

  /** What a search of one address, behind k candidates, ends with: n candidates searched. */
  ghost predicate IdsExact(
    st: Chain, c: seq<(ShortId, Id)>, k: nat, addr: ShortId, todo: seq<Id>, last: Id, limit: nat, n: nat, r: Search)
  {
    && n <= k + |todo| <= |c|
    && match r
       case More(f, l) =>
         && n == k + |todo| && f == FirstSeen(c[..n]) && |f| < limit
         && l == if todo == [] then last else todo[|todo| - 1]
       case Full(f, l) => k < n && ExactFull(c, n, limit, f, Cursor(addr, l))
       case Fail(u) => k <= n < k + |todo| && ExactFail(st, c, n, limit, u)
  }

  /** The n-th candidate is new and fills the page. */
  predicate ExactFull(c: seq<(ShortId, Id)>, n: nat, limit: nat, f: seq<Id>, end: Cursor) {
    && 0 < n <= |c| && f == FirstSeen(c[..n]) && |f| == limit
    && c[n - 1] == (end.addr, end.id) && end.id !in FirstSeen(c[..n - 1])
  }

  /** The candidate behind n others is new, is not stored, and comes before the page is full. */
  predicate ExactFail(st: Chain, c: seq<(ShortId, Id)>, n: nat, limit: nat, u: Id) {
    && n < |c| && c[n].1 == u && u !in st.utxos && u !in FirstSeen(c[..n]) && |FirstSeen(c[..n])| < limit
  }

  lemma NextPair(c: seq<(ShortId, Id)>, k: nat, addr: ShortId, todo: seq<Id>)
    requires todo != [] && k + |todo| <= |c| && c[k..k + |todo|] == Paired(addr, todo)
    ensures c[k] == (addr, todo[0]) && c[k + 1..k + 1 + |todo[1..]|] == Paired(addr, todo[1..])
    ensures FirstSeen(c[..k + 1]) == var f := FirstSeen(c[..k]); if todo[0] in f then f else f + [todo[0]]
  {
    var p := c[k..k + |todo|];
    assert p[0] == c[k];
    assert p[1..] == Paired(addr, todo[1..]);
    assert p[1..] == c[k + 1..k + |todo|];
    assert c[..k + 1][..k] == c[..k];
  }

  lemma {:induction false} SearchIdsExact(
    st: Chain, c: seq<(ShortId, Id)>, k: nat, addr: ShortId, todo: seq<Id>, last: Id, limit: nat) returns (n: nat)
    requires k + |todo| <= |c| && c[k..k + |todo|] == Paired(addr, todo) && |FirstSeen(c[..k])| < limit
    ensures IdsExact(st, c, k, addr, todo, last, limit, n, SearchIds(st, todo, FirstSeen(c[..k]), last, limit))
    decreases |todo|
  {
    if todo == [] {
      n := k;
    } else {
      hide FirstSeen, Paired;
      var u := todo[0];
      NextPair(c, k, addr, todo);
      var found := FirstSeen(c[..k]);
      if u !in found && u !in st.utxos {
        n := k;
      } else if u !in found && |found| + 1 >= limit {
        n := k + 1;
        assert n - 1 == k;
      } else {
        n := SearchIdsExact(st, c, k + 1, addr, todo[1..], u, limit);
      }
    }
  }

  // ----- all addresses -----

  ghost predicate PageExact(
    st: Chain, addrs: seq<ShortId>, c: seq<(ShortId, Id)>, k: nat, cur: Cursor, limit: nat, n: nat, r: Result<Page>)
  {
    match r
    case Missing(u) => k <= n && ExactFail(st, c, n, limit, u)
    case Ok(page) =>
      if |page.ids| >= limit then k < n && ExactFull(c, n, limit, page.ids, page.end)
      else k <= n == |c| && page.ids == FirstSeen(c) && page.end == Cursor(EndAddr(addrs, cur), EndId(c[k..], cur.id))
  }

  /** An address on which the search stops. */
  lemma StopsExact(
    st: Chain, addrs: seq<ShortId>, c: seq<(ShortId, Id)>, k: nat, cur: Cursor, limit: nat) returns (n: nat)
    requires addrs != [] && addrs[0] >= cur.addr && k <= |c| && c[k..] == Candidates(st, addrs, cur)
    requires |FirstSeen(c[..k])| < limit
    requires !SearchIds(st, ToSearch(st, addrs[0], cur, limit), FirstSeen(c[..k]), cur.id, limit).More?
    ensures PageExact(st, addrs, c, k, cur, limit, n, SearchAddrs(st, addrs, cur, FirstSeen(c[..k]), limit))
  {
    hide After, IdsOf, ToSearch, SearchIds, Candidates, FirstSeen, ExactFail, EndAddr, EndId, Paired;
    TodoIsAhead(st, addrs, c, k, cur, limit);
    n := SearchIdsExact(st, c, k, addrs[0], ToSearch(st, addrs[0], cur, limit), cur.id, limit);
  }

  /** An address searched to its end, and what the search goes on with. */
  lemma PassesExact(
    st: Chain, addrs: seq<ShortId>, c: seq<(ShortId, Id)>, k: nat, cur: Cursor, limit: nat) returns (m: nat)
    requires Indexed(st) && Ascending(addrs)
    requires addrs != [] && addrs[0] >= cur.addr && k <= |c| && c[k..] == Candidates(st, addrs, cur)
    requires |FirstSeen(c[..k])| < limit
    requires SearchIds(st, ToSearch(st, addrs[0], cur, limit), FirstSeen(c[..k]), cur.id, limit).More?
    ensures k <= m <= |c|
    ensures var r := SearchIds(st, ToSearch(st, addrs[0], cur, limit), FirstSeen(c[..k]), cur.id, limit);
            var next := Cursor(addrs[0], r.last);
            && r.found == FirstSeen(c[..m]) && |r.found| < limit && c[m..] == Candidates(st, addrs[1..], next)
            && EndAddr(addrs[1..], next) == EndAddr(addrs, cur) && EndId(c[m..], r.last) == EndId(c[k..], cur.id)
  {
    hide After, IdsOf, ToSearch, SearchIds, Candidates, FirstSeen, EndAddr, EndId, Paired;
    var todo := ToSearch(st, addrs[0], cur, limit);
    TodoIsAhead(st, addrs, c, k, cur, limit);
    m := SearchIdsExact(st, c, k, addrs[0], todo, cur.id, limit);
    var next := Cursor(addrs[0], SearchIds(st, todo, FirstSeen(c[..k]), cur.id, limit).last);
    FirstSeenOnce(c[..k]);
    WholeAddressSearched(st, addrs[0], cur, FirstSeen(c[..k]), limit);
    NextAddress(st, addrs, c, k, cur, next);
    EndsBehind(addrs, c, k, todo, cur, next);
  }

  lemma {:induction false} SearchAddrsExact(
    st: Chain, addrs: seq<ShortId>, c: seq<(ShortId, Id)>, k: nat, cur: Cursor, limit: nat) returns (n: nat)
    requires Indexed(st) && Ascending(addrs)
    requires k <= |c| && c[k..] == Candidates(st, addrs, cur) && |FirstSeen(c[..k])| < limit
    ensures PageExact(st, addrs, c, k, cur, limit, n, SearchAddrs(st, addrs, cur, FirstSeen(c[..k]), limit))
    decreases |addrs|
  {
    hide ToSearch, SearchIds, Candidates, FirstSeen, ExactFail, ExactFull, EndAddr, EndId;
    if addrs == [] {
      n := k;
      AtEnd(st, c, k, cur);
    } else if addrs[0] < cur.addr {
      SkipsBelow(st, addrs, cur);
      n := SearchAddrsExact(st, addrs[1..], c, k, cur, limit);
    } else {
      var r := SearchIds(st, ToSearch(st, addrs[0], cur, limit), FirstSeen(c[..k]), cur.id, limit);
      if r.More? {
        var m := PassesExact(st, addrs, c, k, cur, limit);
        n := SearchAddrsExact(st, addrs[1..], c, m, Cursor(addrs[0], r.last), limit);
      } else {
        n := StopsExact(st, addrs, c, k, cur, limit);
      }
    }
  }

  lemma AtEnd(st: Chain, c: seq<(ShortId, Id)>, k: nat, cur: Cursor)
    requires k <= |c| && c[k..] == Candidates(st, [], cur)
    ensures k == |c| && c[..k] == c && EndAddr([], cur) == cur.addr && EndId(c[k..], cur.id) == cur.id
  {
  }

  lemma SkipsBelow(st: Chain, addrs: seq<ShortId>, cur: Cursor)
    requires addrs != [] && addrs[0] < cur.addr
    ensures Candidates(st, addrs, cur) == Candidates(st, addrs[1..], cur)
    ensures EndAddr(addrs, cur) == EndAddr(addrs[1..], cur)
  {
  }

  lemma {:induction false} FirstSeenOnce(c: seq<(ShortId, Id)>)
    ensures NoDup(FirstSeen(c))
  {
    if c != [] { FirstSeenOnce(c[..|c| - 1]); }
  }

  lemma TodoIsAhead(
    st: Chain, addrs: seq<ShortId>, c: seq<(ShortId, Id)>, k: nat, cur: Cursor, limit: nat)
    requires addrs != [] && addrs[0] >= cur.addr && k <= |c| && c[k..] == Candidates(st, addrs, cur)
    ensures var todo := ToSearch(st, addrs[0], cur, limit);
            k + |todo| <= |c| && c[k..k + |todo|] == Paired(addrs[0], todo)
  {
    var todo, all := ToSearch(st, addrs[0], cur, limit), After(IdsOf(st, addrs[0]), StartAt(addrs[0], cur));
    assert todo <= all;
    assert c[k..][..|todo|] == Paired(addrs[0], all)[..|todo|] == Paired(addrs[0], todo);
  }

  lemma NextAddress(
    st: Chain, addrs: seq<ShortId>, c: seq<(ShortId, Id)>, k: nat, cur: Cursor, next: Cursor)
    requires Ascending(addrs) && addrs != [] && addrs[0] >= cur.addr && next.addr == addrs[0]
    requires k <= |c| && c[k..] == Candidates(st, addrs, cur)
    ensures var all := After(IdsOf(st, addrs[0]), StartAt(addrs[0], cur));
            k + |all| <= |c| && c[k + |all|..] == Candidates(st, addrs[1..], next)
  {
    var all := After(IdsOf(st, addrs[0]), StartAt(addrs[0], cur));
    forall a | a in addrs[1..] ensures a > next.addr { LaterAddr(addrs, a); }
    SameBehind(st, addrs[1..], cur, next);
    assert c[k..][|all|..] == Candidates(st, addrs[1..], cur);
  }

  lemma EndsBehind(
    addrs: seq<ShortId>, c: seq<(ShortId, Id)>, k: nat, todo: seq<Id>, cur: Cursor, next: Cursor)
    requires Ascending(addrs) && addrs != [] && addrs[0] >= cur.addr && next.addr == addrs[0]
    requires k + |todo| <= |c| && c[k..k + |todo|] == Paired(addrs[0], todo)
    requires next.id == if todo == [] then cur.id else todo[|todo| - 1]
    ensures EndAddr(addrs[1..], next) == EndAddr(addrs, cur)
    ensures EndId(c[k + |todo|..], next.id) == EndId(c[k..], cur.id)
  {
    if |addrs| > 1 { LaterAddr(addrs, addrs[|addrs| - 1]); }
    if todo != [] {
      var m := |todo| - 1;
      assert c[k + m] == c[k..k + |todo|][m] == Paired(addrs[0], todo)[m];
    }
  }

  /** A page holds the first occurrences among its candidates: all of them if it is short, and otherwise those up to
      the candidate that fills it. A full page ends at that candidate. A short page ends at the last given address at
      or after the cursor's, and at the id of the last candidate, whether that was new or not. A listing fails at the
      first candidate that is new and not stored. */
  lemma PageIsExact(st: Chain, addrs: seq<ShortId>, cur: Cursor, limit: nat) returns (n: nat)
    requires Indexed(st) && Ascending(addrs) && limit >= 1
    ensures PageExact(st, addrs, Candidates(st, addrs, cur), 0, cur, limit, n, PageAt(st, addrs, cur, limit))
  {
    var c := Candidates(st, addrs, cur);
    assert c[0..] == c;
    n := SearchAddrsExact(st, addrs, c, 0, cur, limit);
  }

  // ----- the end of a short page -----

  /** In terms of what lies past the cursor: a short page's end is the last given address at or after the cursor's, and
      the greatest id of the last address that has any. */
  lemma ShortPageEnd(st: Chain, addrs: seq<ShortId>, cur: Cursor, limit: nat, page: Page) returns (a: ShortId)
    requires Indexed(st) && Ascending(addrs) && PageAt(st, addrs, cur, limit) == Ok(page) && |page.ids| < limit
    ensures page.end.addr == EndAddr(addrs, cur)
    ensures if Candidates(st, addrs, cur) == [] then page.end.id == cur.id
            else && Past(st, addrs, cur, a, page.end.id)
                 && forall b: ShortId, v: Id :: Past(st, addrs, cur, b, v) ==> b < a || (b == a && v <= page.end.id)
  {
    var n := PageIsExact(st, addrs, cur, limit);
    var c := Candidates(st, addrs, cur);
    assert c[0..] == c;
    a := cur.addr;
    if c != [] {
      var m := |c| - 1;
      a := c[m].0;
      assert (a, page.end.id) in c;
      CandidatesArePast(st, addrs, cur, a, page.end.id);
      forall b: ShortId, v: Id | Past(st, addrs, cur, b, v) ensures b < a || (b == a && v <= page.end.id) {
        CandidatesArePast(st, addrs, cur, b, v);
        var i :| 0 <= i < |c| && c[i] == (b, v);
        if i < m { CandidatesInOrder(st, addrs, cur, i, m); }
      }
    }
  }

  /** None of the last address's ids lies past a short page's end. */
  lemma NothingLeft(st: Chain, addrs: seq<ShortId>, cur: Cursor, limit: nat, page: Page, u: Id)
    requires Indexed(st) && Ascending(addrs) && PageAt(st, addrs, cur, limit) == Ok(page) && |page.ids| < limit
    requires page.end.addr in addrs && u in IdsOf(st, page.end.addr)
    ensures u <= page.end.id
  {
    var a := ShortPageEnd(st, addrs, cur, limit, page);
    var end := page.end.addr;
    if Past(st, addrs, cur, end, u) {
      CandidatesArePast(st, addrs, cur, end, u);
      AddrsUpTo(addrs, a);
    } else if Candidates(st, addrs, cur) != [] && end == cur.addr {
      AddrsUpTo(addrs, a);
    }
  }

  lemma AddrsUpTo(addrs: seq<ShortId>, a: ShortId)
    requires Ascending(addrs) && a in addrs
    ensures a <= addrs[|addrs| - 1]
  {
    var i :| 0 <= i < |addrs| && addrs[i] == a;
  }

  lemma PastEndIff(st: Chain, addrs: seq<ShortId>, cur: Cursor, end: Cursor, a: ShortId, u: Id)
    requires Ascending(addrs) && end.addr == EndAddr(addrs, cur)
    ensures Past(st, addrs, end, a, u) <==> a == end.addr && a in addrs && u in IdsOf(st, a) && u > end.id
  {
    if a in addrs { AddrsUpTo(addrs, a); }
  }

  /** Resuming a listing from a short page's end, after the chain has changed in any way, lists exactly the ids the last
      address has above that end; so of the ids added to it, those above the end and no others. */
  lemma ResumeLists(
    st: Chain, st': Chain, addrs: seq<ShortId>, cur: Cursor, limit: nat, page: Page, limit': nat, u: Id)
    requires Indexed(st) && Indexed(st') && Ascending(addrs) && limit' >= 1
    requires PageAt(st, addrs, cur, limit) == Ok(page) && |page.ids| < limit
    requires Follow(st', addrs, page.end, limit').Ok?
    ensures InSome(Follow(st', addrs, page.end, limit').value, u)
       <==> page.end.addr in addrs && u in IdsOf(st', page.end.addr) && u > page.end.id
    ensures InSome(Follow(st', addrs, page.end, limit').value, u) ==> u !in IdsOf(st, page.end.addr)
  {
    var last := ShortPageEnd(st, addrs, cur, limit, page);
    FollowIsComplete(st', addrs, page.end, limit');
    PastEndIff(st', addrs, cur, page.end, page.end.addr, u);
    forall a ensures Past(st', addrs, page.end, a, u) ==> a == page.end.addr {
      PastEndIff(st', addrs, cur, page.end, a, u);
    }
    if page.end.addr in addrs && u in IdsOf(st, page.end.addr) { NothingLeft(st, addrs, cur, limit, page, u); }
  }

  /** The end's id can be another address's: with UTXO 7 of address 1 and none of address 2 the end is (2, 7), and a
      UTXO 5 that address 2 gets afterwards is below it. */
  lemma ResumeCanMiss(x: Utxo) returns (st: Chain, st': Chain, page: Page)
    ensures Indexed(st) && Indexed(st') && PageAt(st, [1, 2], START, 10) == Ok(page) && page.end == Cursor(2, 7)
    ensures IdsOf(st', 1) == IdsOf(st, 1) && IdsOf(st, 2) == [] && IdsOf(st', 2) == [5] && 5 in st'.utxos
    ensures Follow(st', [1, 2], page.end, 10) == Ok([Page([], page.end)])
  {
    st := Chain(map[1 := [7]], map[7 := x]);
    st' := Chain(map[1 := [7], 2 := [5]], map[7 := x, 5 := x]);
    page := Page([7], Cursor(2, 7));
    var addrs: seq<ShortId> := [1, 2];
    assert addrs[1..] == [2] && addrs[1..][1..] == [];
    assert ToSearch(st, 1, START, 10) == [7] by { assert After([7], 0) == [7]; }
    assert ToSearch(st, 2, Cursor(1, 7), 10) == [];
    assert SearchIds(st, [7], [], 0, 10) == More([7], 7) by {
      assert SearchIds(st, [7][1..], [7], 7, 10) == More([7], 7);
    }
    assert SearchAddrs(st, addrs[1..], Cursor(1, 7), [7], 10) == Ok(page);
    assert ToSearch(st', 2, page.end, 10) == [] by { assert After([5], 7) == []; }
    assert SearchAddrs(st', addrs[1..], page.end, [], 10) == Ok(Page([], page.end));
  }
}
