/** The ordered key-value base database: entries in ascending byte order, one per key. */
module MemDb {
  import opened Bytes
  import opened Ordered

  type Entries = seq<(bytes, bytes)>

  predicate KeyBelow(a: (bytes, bytes), b: (bytes, bytes)) {
    Lt(a.0, b.0)
  }

  predicate Ascending(es: Entries) {
    Sorted(KeyBelow, es)
  }

  function Find(es: Entries, k: bytes): Option<bytes> {
    if es == [] then None else if es[0].0 == k then Some(es[0].1) else Find(es[1..], k)
  }

  function Insert(es: Entries, k: bytes, v: bytes): (r: Entries)
    ensures forall e :: e in r ==> e == (k, v) || e in es
  {
    if es == [] then [(k, v)]
    else if es[0].0 == k then [(k, v)] + es[1..]
    else if Lt(k, es[0].0) then [(k, v)] + es
    else [es[0]] + Insert(es[1..], k, v)
  }

  lemma {:induction false} InsertFinds(es: Entries, k: bytes, v: bytes, k': bytes)
    ensures Find(Insert(es, k, v), k') == if k' == k then Some(v) else Find(es, k')
  {
    if es != [] && es[0].0 != k && !Lt(k, es[0].0) { InsertFinds(es[1..], k, v, k'); }
  }

  lemma {:induction false} InsertSorted(es: Entries, k: bytes, v: bytes)
    requires Ascending(es)
    ensures Ascending(Insert(es, k, v))
  {
    if es != [] {
      if es[0].0 == k {
        assert Insert(es, k, v)[1..] == es[1..];
      } else if Lt(k, es[0].0) {
        forall i | 0 <= i < |es| ensures Lt(k, es[i].0) {
          if i > 0 { LtTransitive(k, es[0].0, es[i].0); }
        }
      } else {
        LtTotal(k, es[0].0);
        InsertSorted(es[1..], k, v);
        var rest := Insert(es[1..], k, v);
        forall i | 0 <= i < |rest| ensures Lt(es[0].0, rest[i].0) {
          assert rest[i] in rest;
        }
      }
    }
  }

  lemma {:induction false} FindIsEntry(es: Entries, e: (bytes, bytes))
    requires Ascending(es)
    ensures e in es <==> Find(es, e.0) == Some(e.1)
  {
    if es != [] {
      FindIsEntry(es[1..], e);
      assert es == [es[0]] + es[1..];
      if es[0].0 == e.0 {
        forall i | 0 < i < |es| ensures es[i] != e { LtIrreflexive(e.0); }
      }
    }
  }

  // ----- iteration from a start, over a prefix -----

  predicate Hit(k: bytes, start: bytes, prefix: bytes) {
    Le(start, k) && prefix <= k
  }

  function Hits(es: Entries, start: bytes, prefix: bytes): Entries {
    if es == [] then []
    else (if Hit(es[0].0, start, prefix) then [es[0]] else []) + Hits(es[1..], start, prefix)
  }

  lemma Regroup(a: Entries, b: Entries, c: Entries)
    ensures a + (b + c) == a + b + c
  {
  }

  lemma {:induction false} HitsSnoc(es: Entries, e: (bytes, bytes), start: bytes, prefix: bytes)
    ensures Hits(es + [e], start, prefix)
         == Hits(es, start, prefix) + if Hit(e.0, start, prefix) then [e] else []
  {
    hide Hit;
    if es == [] {
      assert es + [e] == [e];
    } else {
      HitsSnoc(es[1..], e, start, prefix);
      var first := if Hit(es[0].0, start, prefix) then [es[0]] else [];
      assert (es + [e])[1..] == es[1..] + [e] && (es + [e])[0] == es[0];
      assert Hits(es + [e], start, prefix) == first + Hits(es[1..] + [e], start, prefix);
      Regroup(first, Hits(es[1..], start, prefix), if Hit(e.0, start, prefix) then [e] else []);
    }
  }

  lemma {:induction false} NoHits(es: Entries, start: bytes, prefix: bytes)
    requires forall e :: e in es ==> !Hit(e.0, start, prefix)
    ensures Hits(es, start, prefix) == []
  {
    if es != [] { NoHits(es[1..], start, prefix); }
  }

  lemma {:induction false} HitsConcat(a: Entries, b: Entries, start: bytes, prefix: bytes)
    ensures Hits(a + b, start, prefix) == Hits(a, start, prefix) + Hits(b, start, prefix)
    decreases |b|
  {
    if b == [] {
      assert a + b == a;
    } else {
      var n := |b| - 1;
      assert a + b == (a + b[..n]) + [b[n]] && b == b[..n] + [b[n]];
      HitsConcat(a, b[..n], start, prefix);
      HitsSnoc(a + b[..n], b[n], start, prefix);
      HitsSnoc(b[..n], b[n], start, prefix);
    }
  }

  /** Keys with a prefix are contiguous: past the prefix and outside its block, no key has it. */
  lemma {:induction false} BlockEnds(prefix: bytes, k: bytes, k': bytes)
    requires !Lt(k, prefix) && !(prefix <= k) && Lt(k, k')
    ensures !(prefix <= k')
  {
    if prefix != [] && k' != [] && k != [] && prefix[0] == k[0] == k'[0] {
      BlockEnds(prefix[1..], k[1..], k'[1..]);
      assert prefix == [prefix[0]] + prefix[1..] && k == [k[0]] + k[1..];
    }
  }

  lemma {:induction false} PrefixIsLe(prefix: bytes, k: bytes)
    requires prefix <= k
    ensures Le(prefix, k)
  {
    if prefix != [] {
      PrefixIsLe(prefix[1..], k[1..]);
      assert prefix == [prefix[0]] + prefix[1..] && k == [k[0]] + k[1..];
    }
  }

  lemma LtThenLe(a: bytes, b: bytes, c: bytes)
    requires Lt(a, b) && Le(b, c)
    ensures Lt(a, c)
  {
    if b != c { LtTransitive(a, b, c); }
  }

  /** The iterator's snapshot: it walks up from the greater lower bound and stops behind the prefix block. */
  method Snapshot(es: Entries, start: bytes, prefix: bytes) returns (out: Entries)
    requires Ascending(es)
    ensures out == Hits(es, start, prefix)
  {
    hide Hits, Lt;
    var lower := if Lt(prefix, start) then start else prefix;
    var i := 0;
    while i < |es| && Lt(es[i].0, lower)
      invariant i <= |es| && forall j :: 0 <= j < i ==> Lt(es[j].0, lower)
    {
      i := i + 1;
    }
    BelowMisses(es[..i], start, prefix, lower);
    out := [];
    while i < |es|
      invariant i <= |es| && out == Hits(es[..i], start, prefix)
    {
      assert es[..i + 1] == es[..i] + [es[i]];
      HitsSnoc(es[..i], es[i], start, prefix);
      var k := es[i].0;
      if !(prefix <= k) {
        if Lt(k, prefix) {
          i := i + 1;
          continue;
        }
        BlockEndsAt(es, i, start, prefix);
        return;
      }
      if Lt(k, start) {
        LtAsymmetric(k, start);
        i := i + 1;
        continue;
      }
      LtTotal(k, start);
      out := out + [es[i]];
      i := i + 1;
    }
    assert es[..i] == es;
  }

  lemma BelowMisses(es: Entries, start: bytes, prefix: bytes, lower: bytes)
    requires lower == (if Lt(prefix, start) then start else prefix)
    requires forall j :: 0 <= j < |es| ==> Lt(es[j].0, lower)
    ensures Hits(es, start, prefix) == []
  {
    forall e | e in es ensures !Hit(e.0, start, prefix) {
      if Hit(e.0, start, prefix) {
        PrefixIsLe(prefix, e.0);
        LtThenLe(e.0, lower, e.0);
        LtIrreflexive(e.0);
      }
    }
    NoHits(es, start, prefix);
  }

  lemma BlockEndsAt(es: Entries, i: nat, start: bytes, prefix: bytes)
    requires Ascending(es) && i < |es| && !Lt(es[i].0, prefix) && !(prefix <= es[i].0)
    ensures Hits(es, start, prefix) == Hits(es[..i], start, prefix)
  {
    forall e | e in es[i..] ensures !Hit(e.0, start, prefix) {
      var j :| i <= j < |es| && es[j] == e;
      if j > i { BlockEnds(prefix, es[i].0, es[j].0); }
    }
    NoHits(es[i..], start, prefix);
    assert es == es[..i] + es[i..];
    HitsConcat(es[..i], es[i..], start, prefix);
  }

  /** The first entry of an iteration is the least one that qualifies. */
  lemma {:induction false} FirstHit(es: Entries, start: bytes, prefix: bytes, e: (bytes, bytes))
    requires Ascending(es) && e in es && Hit(e.0, start, prefix)
    requires forall x :: x in es && Hit(x.0, start, prefix) ==> Le(e.0, x.0)
    ensures Hits(es, start, prefix) != [] && Hits(es, start, prefix)[0] == e
  {
    assert es == [es[0]] + es[1..];
    if es[0] != e {
      assert Lt(es[0].0, e.0);
      LtAsymmetric(es[0].0, e.0);
      FirstHit(es[1..], start, prefix, e);
    }
  }
}
