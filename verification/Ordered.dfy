/** Sequences sorted by a strict order: they are determined by their elements. */
module Ordered {
  ghost predicate Strict<T(!new)>(lt: (T, T) -> bool) {
    && (forall x :: !lt(x, x))
    && (forall x, y, z :: lt(x, y) && lt(y, z) ==> lt(x, z))
  }

  ghost predicate Total<T(!new)>(lt: (T, T) -> bool) {
    forall x, y :: lt(x, y) || x == y || lt(y, x)
  }

  predicate Sorted<T>(lt: (T, T) -> bool, s: seq<T>) {
    forall i, j :: 0 <= i < j < |s| ==> lt(s[i], s[j])
  }

  predicate SameElements<T(==)>(a: seq<T>, b: seq<T>) {
    && (forall x :: x in a ==> x in b)
    && (forall x :: x in b ==> x in a)
  }

  lemma FirstIsLeast<T(!new)>(lt: (T, T) -> bool, a: seq<T>, b: seq<T>)
    requires Strict(lt) && Sorted(lt, a) && Sorted(lt, b) && SameElements(a, b) && a != []
    ensures b != [] && a[0] == b[0]
  {
    assert a[0] in b;
    assert b[0] in a;
    var j :| 0 <= j < |b| && b[j] == a[0];
    var m :| 0 <= m < |a| && a[m] == b[0];
    assert lt(b[0], b[j]) || b[0] == b[j];
    assert lt(a[0], a[m]) || a[0] == a[m];
  }

  lemma RestsAgree<T(!new)>(lt: (T, T) -> bool, a: seq<T>, b: seq<T>)
    requires Strict(lt) && Sorted(lt, a) && Sorted(lt, b) && SameElements(a, b) && a != [] && b != [] && a[0] == b[0]
    ensures SameElements(a[1..], b[1..])
  {
    forall x | x in a[1..] ensures x in b[1..] {
      assert lt(a[0], x) && x in b;
    }
    forall x | x in b[1..] ensures x in a[1..] {
      assert lt(b[0], x) && x in a;
    }
  }

  lemma HasElement<T>(s: seq<T>)
    requires s != []
    ensures exists x :: x in s
  {
    assert s[0] in s;
  }

  /** Two sorted sequences with the same elements are equal. */
  lemma {:induction false} SortedUnique<T(!new)>(lt: (T, T) -> bool, a: seq<T>, b: seq<T>)
    requires Strict(lt) && Sorted(lt, a) && Sorted(lt, b) && SameElements(a, b)
    ensures a == b
    decreases |a|
  {
    if a == [] {
      if b != [] { HasElement(b); }
    } else {
      FirstIsLeast(lt, a, b);
      RestsAgree(lt, a, b);
      SortedUnique(lt, a[1..], b[1..]);
      assert a == [a[0]] + a[1..] && b == [b[0]] + b[1..];
    }
  }
}
