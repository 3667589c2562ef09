/** Bytes, fixed-width integers and their byte orders, and the lexicographic order on byte strings. */
module Bytes {
  type byte = x: int | 0 <= x < 256
  type bytes = seq<byte>

  const U16_MAX: nat := 0xFFFF
  const U32_MAX: nat := 0xFFFF_FFFF
  const U64_MAX: nat := 0xFFFF_FFFF_FFFF_FFFF
  const I32_MAX: nat := 0x7FFF_FFFF

  type u16 = x: nat | x <= U16_MAX
  type u32 = x: nat | x <= U32_MAX
  type u64 = x: nat | x <= U64_MAX

  /** Machine words are 64 bits wide. */
  const USIZE_MAX: nat := U64_MAX

  type usize = x: nat | x <= USIZE_MAX

  datatype Option<+T> = None | Some(value: T)

  /** Addition that saturates at the largest 64-bit word. */
  function SatAdd(a: nat, b: nat): nat {
    if a + b > U64_MAX then U64_MAX else a + b
  }

  /** 256 to the power n: the number of values an n-byte integer can take. */
  function Pow256(n: nat): (r: nat)
    ensures r >= 1
  {
    if n == 0 then 1 else 256 * Pow256(n - 1)
  }

  lemma Pow256Values()
    ensures Pow256(2) == U16_MAX + 1
    ensures Pow256(4) == U32_MAX + 1
    ensures Pow256(8) == U64_MAX + 1
  {
    assert Pow256(2) == 256 * Pow256(1);
    assert Pow256(4) == 256 * 256 * Pow256(2);
    assert Pow256(6) == 256 * 256 * Pow256(4);
    assert Pow256(8) == 256 * 256 * Pow256(6);
  }

  // ----- little endian -----

  /** The n-byte little-endian encoding of v. */
  function LE(v: nat, n: nat): (r: bytes)
    ensures |r| == n
  {
    if n == 0 then [] else [v % 256] + LE(v / 256, n - 1)
  }

  function FromLE(s: bytes): (v: nat)
    ensures v < Pow256(|s|)
  {
    if s == [] then 0 else s[0] + 256 * FromLE(s[1..])
  }

  lemma {:induction false} LERoundTrip(v: nat, n: nat)
    requires v < Pow256(n)
    ensures FromLE(LE(v, n)) == v
  {
    if n > 0 {
      LERoundTrip(v / 256, n - 1);
      assert LE(v, n)[1..] == LE(v / 256, n - 1);
    }
  }

  /** The three widths the formats use, with their ranges spelled out. */
  lemma LE16(v: u16) ensures FromLE(LE(v, 2)) == v { Pow256Values(); LERoundTrip(v, 2); }
  lemma LE32(v: u32) ensures FromLE(LE(v, 4)) == v { Pow256Values(); LERoundTrip(v, 4); }
  lemma LE64(v: u64) ensures FromLE(LE(v, 8)) == v { Pow256Values(); LERoundTrip(v, 8); }

  lemma {:induction false} FromLEZeros(s: bytes)
    requires forall i :: 0 <= i < |s| ==> s[i] == 0
    ensures FromLE(s) == 0
  {
    if s != [] { FromLEZeros(s[1..]); }
  }

  lemma {:induction false} LECanonical(s: bytes)
    ensures LE(FromLE(s), |s|) == s
  {
    if s != [] {
      LECanonical(s[1..]);
      assert s == [s[0]] + s[1..];
    }
  }

  lemma DivTwice(v: nat, p: nat)
    requires p > 0
    ensures v / 256 / p == v / (256 * p) >= 0
  {
    var q, r := v / 256 / p, v / 256 % p;
    assert v / 256 == q * p + r;
    assert v == 256 * (q * p + r) + v % 256 == q * (256 * p) + (256 * r + v % 256);
    assert 256 * r + v % 256 < 256 * p;
    QuotientUnique(v, 256 * p, q, 256 * r + v % 256);
  }

  lemma QuotientUnique(v: nat, m: nat, q: int, r: nat)
    requires r < m && v == q * m + r
    ensures v / m == q >= 0
  {
    var d := v / m;
    assert v == d * m + v % m;
    assert (d - q) * m == r - v % m;
    if d - q >= 1 { ProductAtLeast(d - q, m); }
    if q - d >= 1 { ProductAtLeast(q - d, m); }
    if q <= -1 { ProductAtLeast(-q, m); }
  }

  lemma ProductAtLeast(k: int, m: nat)
    requires k >= 1
    ensures k * m >= m
  {
  }

  /** Byte i of a little-endian number is its i-th digit to base 256. */
  /** Byte i of a number, least significant first. */
  function Digit(v: nat, i: nat): byte {
    v / Pow256(i) % 256
  }

  lemma {:induction false} LEAt(v: nat, n: nat, i: nat)
    requires i < n
    ensures LE(v, n)[i] == Digit(v, i)
  {
    if i > 0 {
      LEAt(v / 256, n - 1, i - 1);
      DivTwice(v, Pow256(i - 1));
      assert LE(v, n)[i] == LE(v / 256, n - 1)[i - 1];
    }
  }

  // ----- big endian -----

  /** The n-byte big-endian encoding of v. */
  function BE(v: nat, n: nat): (r: bytes)
    ensures |r| == n
  {
    if n == 0 then [] else BE(v / 256, n - 1) + [v % 256]
  }

  function FromBE(s: bytes): (v: nat)
    ensures v < Pow256(|s|)
  {
    if s == [] then 0 else 256 * FromBE(s[..|s| - 1]) + s[|s| - 1]
  }

  lemma {:induction false} BERoundTrip(v: nat, n: nat)
    requires v < Pow256(n)
    ensures FromBE(BE(v, n)) == v
  {
    if n > 0 {
      BERoundTrip(v / 256, n - 1);
      assert BE(v, n)[..n - 1] == BE(v / 256, n - 1);
    }
  }

  lemma {:induction false} BECanonical(s: bytes)
    ensures BE(FromBE(s), |s|) == s
  {
    if s != [] {
      BECanonical(s[..|s| - 1]);
      assert s == s[..|s| - 1] + [s[|s| - 1]];
    }
  }

  /** Byte i of a big-endian number is its i-th digit from the left. */
  lemma {:induction false} BEAt(v: nat, n: nat, i: nat)
    requires i < n
    ensures BE(v, n)[i] == Digit(v, n - 1 - i)
  {
    if i < n - 1 {
      BEAt(v / 256, n - 1, i);
      DivTwice(v, Pow256(n - 2 - i));
      assert BE(v, n)[i] == BE(v / 256, n - 1)[i];
    }
  }

  // ----- lexicographic order -----

  /** Strict byte-wise lexicographic order (a proper prefix sorts first). */
  predicate Lt(a: bytes, b: bytes) {
    if b == [] then false
    else if a == [] then true
    else if a[0] != b[0] then a[0] < b[0]
    else Lt(a[1..], b[1..])
  }

  predicate Le(a: bytes, b: bytes) {
    a == b || Lt(a, b)
  }

  lemma {:induction false} LtIrreflexive(a: bytes)
    ensures !Lt(a, a)
  {
    if a != [] { LtIrreflexive(a[1..]); }
  }

  lemma {:induction false} LtTransitive(a: bytes, b: bytes, c: bytes)
    requires Lt(a, b) && Lt(b, c)
    ensures Lt(a, c)
  {
    if a != [] && a[0] == b[0] == c[0] { LtTransitive(a[1..], b[1..], c[1..]); }
  }

  lemma {:induction false} LtTotal(a: bytes, b: bytes)
    ensures Lt(a, b) || a == b || Lt(b, a)
  {
    if a != [] && b != [] && a[0] == b[0] {
      LtTotal(a[1..], b[1..]);
      assert a == [a[0]] + a[1..] && b == [b[0]] + b[1..];
    }
  }

  lemma LtAsymmetric(a: bytes, b: bytes)
    requires Lt(a, b)
    ensures !Lt(b, a) && a != b
  {
    LtIrreflexive(a);
    if Lt(b, a) { LtTransitive(a, b, a); }
  }

  /** A common prefix does not affect the order. */
  lemma {:induction false} LtPrefix(p: bytes, a: bytes, b: bytes)
    ensures Lt(p + a, p + b) == Lt(a, b)
  {
    if p == [] {
      assert p + a == a && p + b == b;
    } else {
      LtPrefix(p[1..], a, b);
      assert (p + a)[1..] == p[1..] + a && (p + b)[1..] == p[1..] + b;
    }
  }

  /** Deciding by the last byte when everything before it has equal length. */
  lemma {:induction false} LtSnoc(a: bytes, x: byte, b: bytes, y: byte)
    requires |a| == |b|
    ensures Lt(a + [x], b + [y]) == (Lt(a, b) || (a == b && x < y))
  {
    if a == [] {
    } else {
      assert (a + [x])[1..] == a[1..] + [x] && (b + [y])[1..] == b[1..] + [y];
      LtSnoc(a[1..], x, b[1..], y);
      assert a == [a[0]] + a[1..] && b == [b[0]] + b[1..];
      LtIrreflexive(a);
    }
  }

  /** Big-endian byte order is numeric order. */
  lemma {:induction false} BEOrder(x: nat, y: nat, n: nat)
    requires x < Pow256(n) && y < Pow256(n)
    ensures Lt(BE(x, n), BE(y, n)) == (x < y)
  {
    if n > 0 {
      BEOrder(x / 256, y / 256, n - 1);
      LtSnoc(BE(x / 256, n - 1), x % 256, BE(y / 256, n - 1), y % 256);
      BERoundTrip(x / 256, n - 1);
      BERoundTrip(y / 256, n - 1);
    }
  }
}
