/** Paginated UTXO listing: pages resumed from a cursor, over a sorted address-to-UTXO index.
    Identifiers are compared as numbers; the empty identifier is 0. */
module Pagination {
  import opened Bytes

  const MAX_PAGE_SIZE: nat := 1024

  type ShortId = nat
  type Id = nat

  const EMPTY: nat := 0

  datatype Owners = Owners(locktime: u64, addrs: seq<ShortId>)
  datatype Output = SecpTransfer(amt: u64, owners: Owners) | OtherOutput
  datatype Utxo = Utxo(txId: Id, outputIndex: u32, assetId: Id, out: Output)

  /** The ids of each address in ascending order, and the stored UTXOs. */
  datatype Chain = Chain(index: map<ShortId, seq<Id>>, utxos: map<Id, Utxo>)

  /** The last address and the last UTXO searched. */
  datatype Cursor = Cursor(addr: ShortId, id: Id)

  datatype Result<+T> = Ok(value: T) | Missing(id: Id)

  datatype Page = Page(ids: seq<Id>, end: Cursor)

  predicate Ascending(s: seq<nat>) {
    forall i, j :: 0 <= i < j < |s| ==> s[i] < s[j]
  }

  predicate Indexed(st: Chain) {
    forall a :: a in st.index ==> Ascending(st.index[a])
  }

  function IdsOf(st: Chain, addr: ShortId): (r: seq<Id>)
    ensures Indexed(st) ==> Ascending(r)
  {
    if addr in st.index then st.index[addr] else []
  }

  // ----- one address -----

  /** The ids strictly after prev. */
  function After(ids: seq<Id>, prev: Id): seq<Id> {
    if ids == [] then [] else (if ids[0] > prev then [ids[0]] else []) + After(ids[1..], prev)
  }

  function FirstN(s: seq<Id>, n: nat): seq<Id> {
    if |s| <= n then s else s[..n]
  }

  lemma {:induction false} AfterIn(ids: seq<Id>, prev: Id, u: Id)
    ensures u in After(ids, prev) <==> u in ids && u > prev
  {
    if ids != [] {
      assert ids == [ids[0]] + ids[1..];
      AfterIn(ids[1..], prev, u);
    }
  }

  lemma {:induction false} AfterAscends(ids: seq<Id>, prev: Id)
    requires Ascending(ids)
    ensures Ascending(After(ids, prev))
  {
    if ids != [] {
      AfterAscends(ids[1..], prev);
      var rest := After(ids[1..], prev);
      forall i | 0 <= i < |rest| ensures rest[i] > ids[0] {
        assert rest[i] in rest;
        AfterIn(ids[1..], prev, rest[i]);
      }
    }
  }

  lemma {:induction false} AfterSnoc(ids: seq<Id>, u: Id, prev: Id)
    ensures After(ids + [u], prev) == After(ids, prev) + if u > prev then [u] else []
  {
    if ids == [] {
      assert ids + [u] == [u];
    } else {
      assert (ids + [u])[1..] == ids[1..] + [u];
      AfterSnoc(ids[1..], u, prev);
    }
  }

  lemma {:induction false} AfterPrefix(ids: seq<Id>, i: nat, prev: Id)
    requires i <= |ids|
    ensures After(ids[..i], prev) <= After(ids, prev)
    decreases |ids|
  {
    if i < |ids| {
      var n := |ids| - 1;
      AfterPrefix(ids[..n], i, prev);
      assert ids[..n][..i] == ids[..i];
      assert ids == ids[..n] + [ids[n]];
      AfterSnoc(ids[..n], ids[n], prev);
    } else {
      assert ids[..i] == ids;
    }
  }

  /** The index iteration: from prev on, skipping prev itself, at most limit ids. */
  method UtxoIds(st: Chain, addr: ShortId, prev: Id, limit: nat) returns (r: seq<Id>)
    requires Indexed(st)
    ensures r == FirstN(After(IdsOf(st, addr), prev), limit)
  {
    var ids := IdsOf(st, addr);
    var i := 0;
    while i < |ids| && ids[i] < prev
      invariant i <= |ids| && After(ids[..i], prev) == []
    {
      assert ids[..i + 1] == ids[..i] + [ids[i]];
      AfterSnoc(ids[..i], ids[i], prev);
      i := i + 1;
    }
    r := [];
    while |r| < limit && i < |ids|
      invariant i <= |ids| && |r| <= limit && r == After(ids[..i], prev)
      invariant i < |ids| ==> ids[i] >= prev
    {
      assert ids[..i + 1] == ids[..i] + [ids[i]];
      AfterSnoc(ids[..i], ids[i], prev);
      if ids[i] != prev { r := r + [ids[i]]; }
      i := i + 1;
    }
    AfterPrefix(ids, i, prev);
    assert ids[..|ids|] == ids;
  }

  // ----- one page -----

  datatype Search = More(found: seq<Id>, last: Id) | Full(found: seq<Id>, last: Id) | Fail(id: Id)

  /** One address's ids, in order: those not seen yet are fetched, until the page is full. */
  function SearchIds(st: Chain, todo: seq<Id>, found: seq<Id>, last: Id, limit: nat): Search {
    if todo == [] then More(found, last)
    else
      var u := todo[0];
      if u in found then SearchIds(st, todo[1..], found, u, limit)
      else if u !in st.utxos then Fail(u)
      else if |found| + 1 >= limit then Full(found + [u], u)
      else SearchIds(st, todo[1..], found + [u], u, limit)
  }

  function StartAt(addr: ShortId, cur: Cursor): Id {
    if addr == cur.addr then cur.id else EMPTY
  }

  function ToSearch(st: Chain, addr: ShortId, cur: Cursor, limit: nat): seq<Id> {
    FirstN(After(IdsOf(st, addr), StartAt(addr, cur)), limit)
  }

  function SearchAddrs(st: Chain, addrs: seq<ShortId>, cur: Cursor, found: seq<Id>, limit: nat): Result<Page> {
    if addrs == [] then Ok(Page(found, cur))
    else if addrs[0] < cur.addr then SearchAddrs(st, addrs[1..], cur, found, limit)
    else
      match SearchIds(st, ToSearch(st, addrs[0], cur, limit), found, cur.id, limit)
      case Fail(u) => Missing(u)
      case Full(found', last) => Ok(Page(found', Cursor(addrs[0], last)))
      case More(found', last) => SearchAddrs(st, addrs[1..], Cursor(addrs[0], last), found', limit)
  }

  function PageAt(st: Chain, addrs: seq<ShortId>, cur: Cursor, limit: nat): Result<Page> {
    SearchAddrs(st, addrs, cur, [], limit)
  }

  predicate AllStored(st: Chain, ids: seq<Id>) {
    forall u :: u in ids ==> u in st.utxos
  }

  function Fetched(st: Chain, ids: seq<Id>): seq<Utxo>
    requires AllStored(st, ids)
  {
    seq(|ids|, i requires 0 <= i < |ids| => assert ids[i] in ids; st.utxos[ids[i]])
  }

  lemma FetchedSnoc(st: Chain, ids: seq<Id>, u: Id)
    requires u in st.utxos && AllStored(st, ids)
    ensures Fetched(st, ids + [u]) == Fetched(st, ids) + [st.utxos[u]]
  {
  }

  /** The listing as it runs: the search size stays at limit while the remaining count shrinks. */
  method GetPaginatedUtxos(st: Chain, addrs: seq<ShortId>, start: Cursor, limit: nat)
    returns (r: Result<(seq<Utxo>, ShortId, Id)>)
    requires Indexed(st)
    ensures match PageAt(st, addrs, start, limit)
            case Missing(u) => r == Missing(u)
            case Ok(page) => AllStored(st, page.ids) && r == Ok((Fetched(st, page.ids), page.end.addr, page.end.id))
  {
    hide After, IdsOf, FirstN;
    var lastAddr: ShortId, lastId: Id := start.addr, start.id;
    var utxos: seq<Utxo> := [];
    var seen: set<Id> := {};
    var remaining := limit;
    ghost var ids: seq<Id> := [];
    var i := 0;
    while i < |addrs|
      invariant i <= |addrs| && Listed(st, ids, utxos, seen, remaining, limit)
      invariant PageAt(st, addrs, start, limit) == SearchAddrs(st, addrs[i..], Cursor(lastAddr, lastId), ids, limit)
    {
      var addr := addrs[i];
      assert addrs[i..][1..] == addrs[i + 1..];
      if addr < lastAddr {
        i := i + 1;
        continue;
      }
      var from := if addr == lastAddr then lastId else EMPTY;
      lastAddr := addr;
      var todo := UtxoIds(st, addr, from, limit);
      ghost var found0: seq<Id>, last0: Id := ids, lastId;
      var j := 0;
      while j < |todo|
        invariant j <= |todo| && Listed(st, ids, utxos, seen, remaining, limit)
        invariant SearchIds(st, todo, found0, last0, limit) == SearchIds(st, todo[j..], ids, lastId, limit)
      {
        var u := todo[j];
        assert todo[j..][1..] == todo[j + 1..];
        lastId := u;
        if u in seen {
          j := j + 1;
          continue;
        }
        if u !in st.utxos { return Missing(u); }
        FetchedSnoc(st, ids, u);
        ids := ids + [u];
        utxos := utxos + [st.utxos[u]];
        seen := seen + {u};
        remaining := if remaining > 0 then remaining - 1 else 0;
        if remaining == 0 { return Ok((utxos, lastAddr, lastId)); }
        j := j + 1;
      }
      i := i + 1;
    }
    r := Ok((utxos, lastAddr, lastId));
  }

  ghost predicate Listed(st: Chain, ids: seq<Id>, utxos: seq<Utxo>, seen: set<Id>, remaining: nat, limit: nat) {
    && AllStored(st, ids) && utxos == Fetched(st, ids)
    && (forall u :: u in seen <==> u in ids)
    && remaining == if |ids| >= limit then 0 else limit - |ids|
  }

  // ----- what a page contains -----

  predicate NoDup(s: seq<Id>) {
    forall i, j :: 0 <= i < j < |s| ==> s[i] != s[j]
  }

  /** Address a's UTXO u lies past the cursor. */
  predicate Past(st: Chain, addrs: seq<ShortId>, cur: Cursor, a: ShortId, u: Id) {
    a in addrs && u in IdsOf(st, a) && u != EMPTY && (a > cur.addr || (a == cur.addr && u > cur.id))
  }

  lemma {:induction false} NoDupFits(xs: seq<Id>, ys: seq<Id>)
    requires NoDup(xs) && forall x :: x in xs ==> x in ys
    ensures |xs| <= |ys|
  {
    if xs != [] {
      var n := |xs| - 1;
      assert xs[n] in xs;
      var k :| 0 <= k < |ys| && ys[k] == xs[n];
      var rest := ys[..k] + ys[k + 1..];
      forall x | x in xs[..n] ensures x in rest {
        var i :| 0 <= i < n && xs[i] == x;
        assert x != xs[n] && x in xs;
        var m :| 0 <= m < |ys| && ys[m] == x;
        assert rest[if m < k then m else m - 1] == x;
      }
      NoDupFits(xs[..n], rest);
    }
  }

  /** What searching one address's ids leaves. */
  ghost predicate Searched(todo: seq<Id>, found: seq<Id>, last: Id, limit: nat, r: Search) {
    match r
    case Fail(u) => u in todo
    case More(f, l) =>
      && found <= f && NoDup(f) && |f| < limit && (forall u :: u in todo ==> u in f)
      && (forall u :: u in f ==> u in found || u in todo)
    case Full(f, l) =>
      && found <= f && NoDup(f) && |f| == limit && l in todo
      && (forall u :: u in todo && u <= l ==> u in f)
      && (forall u :: u in f ==> u in found || u in todo)
  }

  lemma {:induction false} SearchIdsSound(st: Chain, todo: seq<Id>, found: seq<Id>, last: Id, limit: nat)
    requires Ascending(todo) && NoDup(found) && |found| < limit
    ensures Searched(todo, found, last, limit, SearchIds(st, todo, found, last, limit))
    ensures SearchIds(st, todo, found, last, limit).Fail? ==> SearchIds(st, todo, found, last, limit).id !in st.utxos
  {
    if todo != [] {
      var u := todo[0];
      if u in found {
        SearchIdsSound(st, todo[1..], found, u, limit);
        SearchedNext(todo, found, found, last, limit, SearchIds(st, todo[1..], found, u, limit));
      } else if u in st.utxos && |found| + 1 < limit {
        SearchIdsSound(st, todo[1..], found + [u], u, limit);
        SearchedNext(todo, found, found + [u], last, limit, SearchIds(st, todo[1..], found + [u], u, limit));
      }
    }
  }

  lemma SearchedNext(todo: seq<Id>, found: seq<Id>, found': seq<Id>, last: Id, limit: nat, r: Search)
    requires todo != [] && found <= found' && todo[0] in found'
    requires forall x :: x in found' ==> x in found || x == todo[0]
    requires Searched(todo[1..], found', todo[0], limit, r)
    ensures Searched(todo, found, last, limit, r)
  {
    assert todo == [todo[0]] + todo[1..];
    if !r.Fail? {
      var k :| 0 <= k < |found'| && found'[k] == todo[0];
      assert r.found[k] == todo[0];
    }
  }

  /** An address that does not fill the page has had every id past the cursor searched: had the list been cut
      at limit, its distinct ids would have filled the page. */
  lemma WholeAddressSearched(st: Chain, addr: ShortId, cur: Cursor, found: seq<Id>, limit: nat)
    requires Indexed(st) && NoDup(found) && |found| < limit
    requires SearchIds(st, ToSearch(st, addr, cur, limit), found, cur.id, limit).More?
    ensures ToSearch(st, addr, cur, limit) == After(IdsOf(st, addr), StartAt(addr, cur))
  {
    var all := After(IdsOf(st, addr), StartAt(addr, cur));
    AfterAscends(IdsOf(st, addr), StartAt(addr, cur));
    var todo := ToSearch(st, addr, cur, limit);
    SearchIdsSound(st, todo, found, cur.id, limit);
    NoDupFits(todo, SearchIds(st, todo, found, cur.id, limit).found);
  }

  ghost predicate PageGood(st: Chain, addrs: seq<ShortId>, cur: Cursor, found: seq<Id>, limit: nat, r: Result<Page>) {
    match r
    case Missing(u) => u !in st.utxos && exists a :: Past(st, addrs, cur, a, u)
    case Ok(page) =>
      && found <= page.ids && NoDup(page.ids) && |page.ids| <= limit
      && (forall u :: u in page.ids ==> u in found || exists a :: Past(st, addrs, cur, a, u))
      && (|page.ids| < limit ==> forall a: ShortId, u: Id :: Past(st, addrs, cur, a, u) ==> u in page.ids)
      && (|page.ids| == limit ==>
            && Past(st, addrs, cur, page.end.addr, page.end.id)
            && forall a: ShortId, u: Id ::
                 Past(st, addrs, cur, a, u) ==> u in page.ids || Past(st, addrs, page.end, a, u))
  }

  lemma {:induction false} SearchAddrsGood(st: Chain, addrs: seq<ShortId>, cur: Cursor, found: seq<Id>, limit: nat)
    requires Indexed(st) && Ascending(addrs) && NoDup(found) && |found| < limit
    ensures PageGood(st, addrs, cur, found, limit, SearchAddrs(st, addrs, cur, found, limit))
  {
    if addrs != [] {
      var addr := addrs[0];
      assert addrs == [addr] + addrs[1..];
      if addr < cur.addr {
        SearchAddrsGood(st, addrs[1..], cur, found, limit);
        SkipGood(st, addrs, cur, found, limit, SearchAddrs(st, addrs[1..], cur, found, limit));
      } else {
        var todo := ToSearch(st, addr, cur, limit);
        AfterAscends(IdsOf(st, addr), StartAt(addr, cur));
        SearchIdsSound(st, todo, found, cur.id, limit);
        ToSearchIsPast(st, addrs, cur, limit);
        match SearchIds(st, todo, found, cur.id, limit)
        case Fail(u) => assert Past(st, addrs, cur, addr, u);
        case Full(found', last) => FullGood(st, addrs, cur, found, limit, found', last);
        case More(found', last) =>
          WholeAddressSearched(st, addr, cur, found, limit);
          var next := Cursor(addr, last);
          SearchAddrsGood(st, addrs[1..], next, found', limit);
          MoreGood(st, addrs, cur, found, limit, found', next, SearchAddrs(st, addrs[1..], next, found', limit));
      }
    }
  }

  lemma ToSearchIsPast(st: Chain, addrs: seq<ShortId>, cur: Cursor, limit: nat)
    requires addrs != [] && addrs[0] >= cur.addr
    ensures forall u :: u in ToSearch(st, addrs[0], cur, limit) ==> Past(st, addrs, cur, addrs[0], u)
  {
    forall u: Id | u in ToSearch(st, addrs[0], cur, limit) ensures Past(st, addrs, cur, addrs[0], u) {
      AfterIn(IdsOf(st, addrs[0]), StartAt(addrs[0], cur), u);
    }
  }

  lemma SkipGood(st: Chain, addrs: seq<ShortId>, cur: Cursor, found: seq<Id>, limit: nat, r: Result<Page>)
    requires addrs != [] && addrs[0] < cur.addr && PageGood(st, addrs[1..], cur, found, limit, r)
    ensures PageGood(st, addrs, cur, found, limit, r)
  {
    assert addrs == [addrs[0]] + addrs[1..];
    assert forall a: ShortId, u: Id :: Past(st, addrs, cur, a, u) <==> Past(st, addrs[1..], cur, a, u);
    assert forall c: Cursor, a: ShortId, u: Id :: Past(st, addrs[1..], c, a, u) ==> Past(st, addrs, c, a, u);
  }

  lemma FullGood(
    st: Chain, addrs: seq<ShortId>, cur: Cursor, found: seq<Id>, limit: nat, found': seq<Id>, last: Id)
    requires Indexed(st) && Ascending(addrs) && addrs != [] && addrs[0] >= cur.addr
    requires var todo := ToSearch(st, addrs[0], cur, limit);
             && Searched(todo, found, cur.id, limit, Full(found', last))
             && forall u :: u in todo ==> Past(st, addrs, cur, addrs[0], u)
    ensures PageGood(st, addrs, cur, found, limit, Ok(Page(found', Cursor(addrs[0], last))))
  {
    var addr, end := addrs[0], Cursor(addrs[0], last);
    forall a: ShortId, u: Id | Past(st, addrs, cur, a, u) ensures u in found' || Past(st, addrs, end, a, u) {
      if a == addr && u <= last { CutKeepsBelow(st, addr, cur, limit, last, u); }
    }
  }

  /** The cut list holds everything up to any of its ids. */
  lemma CutKeepsBelow(st: Chain, addr: ShortId, cur: Cursor, limit: nat, last: Id, u: Id)
    requires Indexed(st) && last in ToSearch(st, addr, cur, limit)
    requires u in IdsOf(st, addr) && u > StartAt(addr, cur) && u <= last
    ensures u in ToSearch(st, addr, cur, limit)
  {
    var all := After(IdsOf(st, addr), StartAt(addr, cur));
    AfterAscends(IdsOf(st, addr), StartAt(addr, cur));
    AfterIn(IdsOf(st, addr), StartAt(addr, cur), u);
    var k :| 0 <= k < |ToSearch(st, addr, cur, limit)| && ToSearch(st, addr, cur, limit)[k] == last;
    var i :| 0 <= i < |all| && all[i] == u;
    assert all[k] == last;
    assert ToSearch(st, addr, cur, limit)[i] == u;
  }

  lemma MoreGood(
    st: Chain, addrs: seq<ShortId>, cur: Cursor, found: seq<Id>, limit: nat, found': seq<Id>, next: Cursor,
    r: Result<Page>)
    requires Ascending(addrs) && addrs != [] && addrs[0] >= cur.addr && next.addr == addrs[0]
    requires Searched(ToSearch(st, addrs[0], cur, limit), found, cur.id, limit, More(found', next.id))
    requires forall u :: u in ToSearch(st, addrs[0], cur, limit) ==> Past(st, addrs, cur, addrs[0], u)
    requires ToSearch(st, addrs[0], cur, limit) == After(IdsOf(st, addrs[0]), StartAt(addrs[0], cur))
    requires PageGood(st, addrs[1..], next, found', limit, r)
    ensures PageGood(st, addrs, cur, found, limit, r)
  {
    var addr, rest := addrs[0], addrs[1..];
    assert addrs == [addr] + rest;
    forall a: ShortId, u: Id ensures Past(st, rest, next, a, u) <==> Past(st, addrs, cur, a, u) && a != addr {
      if a in rest { var i :| 0 <= i < |rest| && rest[i] == a; assert addrs[i + 1] == a; }
    }
    forall u: Id | Past(st, addrs, cur, addr, u) ensures u in found' {
      AfterIn(IdsOf(st, addr), StartAt(addr, cur), u);
    }
    if r.Ok? {
      forall a: ShortId, u: Id | Past(st, addrs, cur, a, u)
        ensures u in r.value.ids || (|r.value.ids| == limit && Past(st, addrs, r.value.end, a, u))
      {
        if a != addr { assert Past(st, rest, next, a, u); }
      }
    }
  }

  /** A page has no duplicates and at most limit entries, all past the cursor; a short page has everything
      past the cursor, a full one everything up to its end cursor, which is past the start cursor. */
  lemma PageIsComplete(st: Chain, addrs: seq<ShortId>, cur: Cursor, limit: nat)
    requires Indexed(st) && Ascending(addrs) && limit >= 1
    ensures PageGood(st, addrs, cur, [], limit, PageAt(st, addrs, cur, limit))
  {
    SearchAddrsGood(st, addrs, cur, [], limit);
  }

  // ----- following the cursors -----

  /** Everything a listing from the cursor has yet to return. */
  function PastSet(st: Chain, addrs: seq<ShortId>, cur: Cursor): set<(ShortId, Id)> {
    set a, u | a in addrs && u in IdsOf(st, a) && Past(st, addrs, cur, a, u) :: (a, u)
  }

  lemma CursorAdvances(st: Chain, addrs: seq<ShortId>, cur: Cursor, end: Cursor)
    requires Past(st, addrs, cur, end.addr, end.id)
    ensures |PastSet(st, addrs, end)| < |PastSet(st, addrs, cur)|
  {
    var all, rest := PastSet(st, addrs, cur), PastSet(st, addrs, end);
    assert (end.addr, end.id) in all && (end.addr, end.id) !in rest;
    assert rest <= all;
    SmallerSet(rest, all);
  }

  lemma SmallerSet<T>(a: set<T>, b: set<T>)
    requires a < b
    ensures |a| < |b|
  {
    var x :| x in b && x !in a;
    assert a <= b - {x};
    SubsetSize(a, b - {x});
  }

  lemma {:induction false} SubsetSize<T>(a: set<T>, b: set<T>)
    requires a <= b
    ensures |a| <= |b|
    decreases |a|
  {
    if a != {} {
      var x :| x in a;
      SubsetSize(a - {x}, b - {x});
    }
  }

  /** The pages a client reads by passing each page's end back, until one is short. */
  function Follow(st: Chain, addrs: seq<ShortId>, cur: Cursor, limit: nat): Result<seq<Page>>
    requires Indexed(st) && Ascending(addrs) && limit >= 1
    decreases |PastSet(st, addrs, cur)|
  {
    match PageAt(st, addrs, cur, limit)
    case Missing(u) => Missing(u)
    case Ok(page) =>
      if |page.ids| < limit then Ok([page])
      else
        PageIsComplete(st, addrs, cur, limit);
        CursorAdvances(st, addrs, cur, page.end);
        match Follow(st, addrs, page.end, limit)
        case Missing(u) => Missing(u)
        case Ok(pages) => Ok([page] + pages)
  }

  ghost predicate InSome(pages: seq<Page>, u: Id) {
    exists i :: 0 <= i < |pages| && u in pages[i].ids
  }

  /** Every listing ends after finitely many pages, all full but the last; together they hold exactly the
      UTXOs past the cursor, and it fails only on an indexed UTXO that is not stored. */
  lemma {:induction false} FollowIsComplete(st: Chain, addrs: seq<ShortId>, cur: Cursor, limit: nat)
    requires Indexed(st) && Ascending(addrs) && limit >= 1
    ensures match Follow(st, addrs, cur, limit)
            case Missing(u) => u !in st.utxos && exists a :: Past(st, addrs, cur, a, u)
            case Ok(pages) =>
              && 1 <= |pages| <= |PastSet(st, addrs, cur)| + 1
              && (forall i :: 0 <= i < |pages| ==>
                    NoDup(pages[i].ids) && (|pages[i].ids| < limit <==> i == |pages| - 1))
              && (forall u: Id :: InSome(pages, u) <==> exists a :: Past(st, addrs, cur, a, u))
    decreases |PastSet(st, addrs, cur)|
  {
    PageIsComplete(st, addrs, cur, limit);
    match PageAt(st, addrs, cur, limit)
    case Missing(u) =>
    case Ok(page) =>
      if |page.ids| < limit {
        forall u: Id ensures InSome([page], u) <==> exists a :: Past(st, addrs, cur, a, u) {
          if u in page.ids { assert [page][0] == page; }
        }
      } else {
        CursorAdvances(st, addrs, cur, page.end);
        FollowIsComplete(st, addrs, page.end, limit);
        PastWeakens(st, addrs, cur, page.end);
        var rest := Follow(st, addrs, page.end, limit);
        if rest.Ok? {
          forall u: Id ensures InSome([page] + rest.value, u) <==> exists a :: Past(st, addrs, cur, a, u) {
            InSomeCons(page, rest.value, u);
          }
        }
      }
  }

  lemma PastWeakens(st: Chain, addrs: seq<ShortId>, cur: Cursor, end: Cursor)
    requires Past(st, addrs, cur, end.addr, end.id)
    ensures forall a: ShortId, u: Id :: Past(st, addrs, end, a, u) ==> Past(st, addrs, cur, a, u)
  {
  }

  lemma InSomeCons(page: Page, pages: seq<Page>, u: Id)
    ensures InSome([page] + pages, u) <==> u in page.ids || InSome(pages, u)
  {
    var all := [page] + pages;
    if InSome(pages, u) {
      var i :| 0 <= i < |pages| && u in pages[i].ids;
      assert all[i + 1] == pages[i];
    }
    if u in page.ids { assert all[0] == page; }
  }

  const START: Cursor := Cursor(EMPTY, EMPTY)

  /** From the empty cursor, the pages hold exactly the UTXOs of the given addresses, except one whose id is
      the empty id: the index iteration never yields it. */
  lemma PagesCoverEveryUtxo(st: Chain, addrs: seq<ShortId>, limit: nat, u: Id)
    requires Indexed(st) && Ascending(addrs) && limit >= 1 && Follow(st, addrs, START, limit).Ok?
    ensures InSome(Follow(st, addrs, START, limit).value, u)
       <==> u != EMPTY && exists a :: a in addrs && u in IdsOf(st, a)
  {
    FollowIsComplete(st, addrs, START, limit);
    if exists a :: Past(st, addrs, START, a, u) {
      var a :| Past(st, addrs, START, a, u);
      assert a in addrs && u in IdsOf(st, a);
    }
    if u != EMPTY && exists a :: a in addrs && u in IdsOf(st, a) {
      var a :| a in addrs && u in IdsOf(st, a);
      assert Past(st, addrs, START, a, u);
    }
  }

  // ----- limits -----

  /** The requested limit, with 0 and anything too large meaning the maximum. */
  function PageLimit(requested: u32): (r: nat)
    ensures 1 <= requested <= 1024 ==> r == requested
    ensures requested == 0 || requested > 1024 ==> r == 1024
  {
    if requested == 0 || requested > MAX_PAGE_SIZE then MAX_PAGE_SIZE else requested
  }

  // ----- all UTXOs of one address -----

  method GetAllUtxos(st: Chain, addrs: seq<ShortId>) returns (r: Result<seq<Utxo>>)
    requires Indexed(st)
    ensures match PageAt(st, addrs, START, USIZE_MAX)
            case Missing(u) => r == Missing(u)
            case Ok(page) => AllStored(st, page.ids) && r == Ok(Fetched(st, page.ids))
  {
    var page := GetPaginatedUtxos(st, addrs, START, USIZE_MAX);
    r := match page case Missing(u) => Missing(u) case Ok((utxos, _, _)) => Ok(utxos);
  }

  /** The address's UTXOs that a listing reaches. */
  function Reached(st: Chain, addr: ShortId): seq<Id> {
    After(IdsOf(st, addr), EMPTY)
  }

  lemma {:induction false} SearchAll(st: Chain, todo: seq<Id>, found: seq<Id>, last: Id, limit: nat)
    requires NoDup(found + todo) && |found| + |todo| < limit
    ensures var r := SearchIds(st, todo, found, last, limit);
            if AllStored(st, todo) then r.More? && r.found == found + todo
            else r.Fail? && r.id in todo && r.id !in st.utxos
    decreases |todo|
  {
    if todo == [] {
      assert found + todo == found;
    } else {
      var u := todo[0];
      assert (found + todo)[|found|] == u;
      assert u !in found by {
        assert forall k :: 0 <= k < |found| ==> (found + todo)[k] == found[k];
      }
      assert found + [u] + todo[1..] == found + todo;
      assert todo == [u] + todo[1..];
      SearchAll(st, todo[1..], found + [u], u, limit);
    }
  }

  /** All UTXOs of one address are exactly those its listing reaches, in order, each once; the listing fails
      exactly when one of them is not stored. */
  lemma AllOfOneAddress(st: Chain, addr: ShortId)
    requires Indexed(st) && |IdsOf(st, addr)| < USIZE_MAX
    ensures var r := PageAt(st, [addr], START, USIZE_MAX);
            if AllStored(st, Reached(st, addr)) then r.Ok? && r.value.ids == Reached(st, addr)
            else r.Missing? && r.id in Reached(st, addr) && r.id !in st.utxos
  {
    var todo := Reached(st, addr);
    AfterAscends(IdsOf(st, addr), EMPTY);
    AfterShort(IdsOf(st, addr), EMPTY);
    assert [] + todo == todo;
    SearchAll(st, todo, [], EMPTY, USIZE_MAX);
    OneAddressPage(st, addr, USIZE_MAX);
  }

  /** A listing of one address from the empty cursor is one search of its ids. */
  lemma OneAddressPage(st: Chain, addr: ShortId, limit: nat)
    requires |Reached(st, addr)| <= limit
    ensures PageAt(st, [addr], START, limit)
         == match SearchIds(st, Reached(st, addr), [], EMPTY, limit)
            case Fail(u) => Missing(u)
            case Full(found, last) => Ok(Page(found, Cursor(addr, last)))
            case More(found, last) => Ok(Page(found, Cursor(addr, last)))
  {
    var addrs := [addr];
    assert ToSearch(st, addr, START, limit) == Reached(st, addr);
    assert addrs[1..] == [];
    var r := SearchIds(st, Reached(st, addr), [], EMPTY, limit);
    if r.More? {
      assert SearchAddrs(st, addrs[1..], Cursor(addr, r.last), r.found, limit)
          == Ok(Page(r.found, Cursor(addr, r.last)));
    }
    assert addrs[0] == addr;
  }

  lemma {:induction false} AfterShort(ids: seq<Id>, prev: Id)
    ensures |After(ids, prev)| <= |ids|
  {
    if ids != [] { AfterShort(ids[1..], prev); }
  }
}
