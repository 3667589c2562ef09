/** One order that sorted maps can iterate by: values are compared by a code of numbers, from left to right. */
module KeyOrders {
  import opened Bytes
  import opened Ordered
  import opened Wire
  import opened Unmarshal

  // ----- numbers from left to right -----

  predicate Before(a: seq<nat>, b: seq<nat>) {
    if a == [] then b != []
    else b != [] && (a[0] < b[0] || (a[0] == b[0] && Before(a[1..], b[1..])))
  }

  lemma {:induction false} BeforeIrreflexive(a: seq<nat>)
    ensures !Before(a, a)
  {
    if a != [] { BeforeIrreflexive(a[1..]); }
  }

  lemma {:induction false} BeforeTransitive(a: seq<nat>, b: seq<nat>, c: seq<nat>)
    requires Before(a, b) && Before(b, c)
    ensures Before(a, c)
  {
    if a != [] && a[0] == b[0] == c[0] { BeforeTransitive(a[1..], b[1..], c[1..]); }
  }

  lemma {:induction false} BeforeTotal(a: seq<nat>, b: seq<nat>)
    ensures Before(a, b) || a == b || Before(b, a)
  {
    if a != [] && b != [] && a[0] == b[0] {
      BeforeTotal(a[1..], b[1..]);
      assert a == [a[0]] + a[1..] && b == [b[0]] + b[1..];
    }
  }

  // ----- a code for values -----

  function Code(v: Val): seq<nat>
    decreases v
  {
    match v
    case Num(n) => [0, n]
    case Flag(b) => [1, if b then 1 else 0]
    case Text(s) => [2, |s|] + s
    case Raw(s) => [3, |s|] + s
    case List(vs) => [4, |vs|] + CodeAll(vs)
    case Dict(es) => [5, |es|] + CodeEntries(es)
    case Record(vs) => [6, |vs|] + CodeAll(vs)
    case Tagged(i, p) => [7, i] + Code(p)
  }

  function CodeAll(vs: seq<Val>): seq<nat>
    decreases vs
  {
    if vs == [] then [] else Code(vs[0]) + CodeAll(vs[1..])
  }

  function CodeEntries(es: seq<(Val, Val)>): seq<nat>
    decreases es
  {
    if es == [] then [] else CodeEntry(es[0]) + CodeEntries(es[1..])
  }

  function CodeEntry(e: (Val, Val)): seq<nat>
    decreases e
  {
    Code(e.0) + Code(e.1)
  }

  /** No code is the beginning of another, so a value is read off the front of any sequence. */
  lemma {:induction false} CodeReads(a: Val, b: Val, x: seq<nat>, y: seq<nat>)
    requires Code(a) + x == Code(b) + y
    ensures a == b && x == y
    decreases a
  {
    assert Code(a)[0] == Code(b)[0] && Code(a)[1] == Code(b)[1] by {
      assert (Code(a) + x)[0] == Code(a)[0] && (Code(b) + y)[0] == Code(b)[0];
      assert (Code(a) + x)[1] == Code(a)[1] && (Code(b) + y)[1] == Code(b)[1];
    }
    assert Code(a)[2..] + x == (Code(a) + x)[2..] == (Code(b) + y)[2..] == Code(b)[2..] + y;
    match a
    case Num(n) =>
    case Flag(f) =>
    case Text(s) => SplitEqual(s, b.utf8, x, y);
    case Raw(s) => SplitEqual(s, b.data, x, y);
    case List(vs) => AllRead(vs, b.elems, x, y);
    case Dict(es) => EntriesRead(es, b.entries, x, y);
    case Record(vs) => AllRead(vs, b.values, x, y);
    case Tagged(i, p) => CodeReads(p, b.payload, x, y);
  }

  lemma SplitEqual(s: seq<nat>, t: seq<nat>, x: seq<nat>, y: seq<nat>)
    requires |s| == |t| && s + x == t + y
    ensures s == t && x == y
  {
    assert s == (s + x)[..|s|] && x == (s + x)[|s|..];
    assert t == (t + y)[..|t|] && y == (t + y)[|t|..];
  }

  lemma {:induction false} AllRead(vs: seq<Val>, ws: seq<Val>, x: seq<nat>, y: seq<nat>)
    requires |vs| == |ws| && CodeAll(vs) + x == CodeAll(ws) + y
    ensures vs == ws && x == y
    decreases vs
  {
    if vs == [] {
      assert CodeAll(vs) + x == x && CodeAll(ws) + y == y;
    } else {
      var rest, other := CodeAll(vs[1..]) + x, CodeAll(ws[1..]) + y;
      assert Code(vs[0]) + rest == CodeAll(vs) + x && Code(ws[0]) + other == CodeAll(ws) + y;
      CodeReads(vs[0], ws[0], rest, other);
      AllRead(vs[1..], ws[1..], x, y);
      assert vs == [vs[0]] + vs[1..] && ws == [ws[0]] + ws[1..];
    }
  }

  lemma {:induction false} EntriesRead(es: seq<(Val, Val)>, fs: seq<(Val, Val)>, x: seq<nat>, y: seq<nat>)
    requires |es| == |fs| && CodeEntries(es) + x == CodeEntries(fs) + y
    ensures es == fs && x == y
    decreases es
  {
    if es == [] {
      assert CodeEntries(es) + x == x && CodeEntries(fs) + y == y;
    } else {
      var rest, other := CodeEntries(es[1..]) + x, CodeEntries(fs[1..]) + y;
      assert CodeEntry(es[0]) + rest == CodeEntries(es) + x && CodeEntry(fs[0]) + other == CodeEntries(fs) + y;
      EntryReads(es[0], fs[0], rest, other);
      EntriesRead(es[1..], fs[1..], x, y);
      assert es == [es[0]] + es[1..] && fs == [fs[0]] + fs[1..];
    }
  }

  lemma EntryReads(e: (Val, Val), f: (Val, Val), x: seq<nat>, y: seq<nat>)
    requires CodeEntry(e) + x == CodeEntry(f) + y
    ensures e == f && x == y
    decreases e
  {
    assert Code(e.0) + (Code(e.1) + x) == CodeEntry(e) + x && Code(f.0) + (Code(f.1) + y) == CodeEntry(f) + y;
    CodeReads(e.0, f.0, Code(e.1) + x, Code(f.1) + y);
    CodeReads(e.1, f.1, x, y);
  }

  // ----- the order -----

  predicate CodeLess(a: Val, b: Val) {
    Before(Code(a), Code(b))
  }

  /** Numbers are ordered as numbers, and the whole order is one that the codec's maps can have. */
  lemma CodeLessIsKeyOrder()
    ensures KeyOrder(CodeLess)
    ensures forall m: nat, n: nat :: CodeLess(Num(m), Num(n)) <==> m < n
  {
    forall a: Val ensures !CodeLess(a, a) { BeforeIrreflexive(Code(a)); }
    forall a: Val, b: Val, c: Val | CodeLess(a, b) && CodeLess(b, c) ensures CodeLess(a, c) {
      BeforeTransitive(Code(a), Code(b), Code(c));
    }
    forall a: Val, b: Val ensures CodeLess(a, b) || a == b || CodeLess(b, a) {
      BeforeTotal(Code(a), Code(b));
      if Code(a) == Code(b) { CodeReads(a, b, [], []); }
    }
    forall m: nat, n: nat ensures CodeLess(Num(m), Num(n)) <==> m < n {
      assert Code(Num(m))[1..] == [m] && Code(Num(n))[1..] == [n];
      assert Before([m], [n]) <==> m < n || (m == n && Before([m][1..], [n][1..]));
    }
  }
}
