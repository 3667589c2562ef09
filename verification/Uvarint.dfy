/** Unsigned LEB128 varints, as the archive's length prefixes use them. */
module Uvarint {
  import opened Bytes

  function Pow128(i: nat): (r: nat)
    ensures r >= 1
  {
    if i == 0 then 1 else 128 * Pow128(i - 1)
  }

  lemma Pow128At9()
    ensures Pow128(9) == 0x8000_0000_0000_0000
  {
    assert Pow128(3) == 128 * 128 * Pow128(1);
    assert Pow128(5) == 128 * 128 * Pow128(3);
    assert Pow128(7) == 128 * 128 * Pow128(5);
    assert Pow128(9) == 128 * 128 * Pow128(7);
  }

  lemma {:induction false} Pow128Monotone(i: nat, j: nat)
    requires i <= j
    ensures Pow128(i) <= Pow128(j)
    decreases j
  {
    if i < j { Pow128Monotone(i, j - 1); }
  }

  /** A seven-bit group at byte i. */
  function Group(b: nat, i: nat): nat {
    b * Pow128(i)
  }

  /** Seven bits a byte, low bits first; the top bit says that more follow. */
  function Put(x: nat): (r: bytes)
    ensures r != []
  {
    if x < 0x80 then [x] else [0x80 + x % 0x80] + Put(x / 0x80)
  }

  method PutUvarint(out: bytes, x: u64) returns (r: bytes, n: nat)
    ensures r == out + Put(x) && n == |Put(x)|
  {
    var y := x;
    r, n := out, 0;
    while y >= 0x80
      invariant r + Put(y) == out + Put(x) && n + |Put(y)| == |Put(x)|
    {
      assert r + Put(y) == r + [0x80 + y % 0x80] + Put(y / 0x80);
      r := r + [0x80 + y % 0x80];
      y := y / 0x80;
      n := n + 1;
    }
    r := r + [y];
    n := n + 1;
  }

  /** The value and the number of bytes read, from byte i on, with x accumulated so far. */
  function ReadFrom(buf: bytes, i: nat, x: nat): (r: Option<(nat, nat)>)
    decreases |buf| - i
  {
    if i >= |buf| || i == 10 then None
    else if buf[i] < 0x80 then
      if i == 9 && buf[i] > 1 then None else Some((x + Group(buf[i], i), i + 1))
    else ReadFrom(buf, i + 1, x + Group(buf[i] - 0x80, i))
  }

  function Read(buf: bytes): Option<(nat, nat)> {
    ReadFrom(buf, 0, 0)
  }

  /** A seven-bit group shifted left 7i places in 64 bits: what does not fit is lost. */
  function Shl(b: nat, i: nat): nat {
    Group(b, i) % (U64_MAX + 1)
  }

  lemma ShlFits(b: nat, i: nat)
    requires b < 0x80 && (i <= 8 || (i == 9 && b <= 1))
    ensures Shl(b, i) == Group(b, i)
  {
    Pow128At9();
    if i <= 8 {
      Pow128Monotone(i, 8);
      assert Pow128(9) == 128 * Pow128(8);
      MulLe(b, 127, Pow128(i));
    }
  }

  lemma MulLe(a: nat, b: nat, c: nat)
    requires a <= b
    ensures a * c <= b * c
  {
  }

  /** Reading never exceeds 64 bits: bits lost at the tenth byte belong to a varint that is refused. */
  method ReadUvarint(buf: bytes) returns (r: Option<(nat, nat)>)
    ensures r == Read(buf)
  {
    var x: nat, i: nat := 0, 0;
    while i < |buf|
      invariant i <= |buf| && i <= 10
      invariant Read(buf) == ReadFrom(buf, i, x)
    {
      if i == 10 { return None; }
      var b := buf[i];
      if b < 0x80 {
        if i == 9 && b > 1 { return None; }
        ShlFits(b, i);
        return Some((x + Shl(b, i), i + 1));
      }
      if i <= 8 { ShlFits(b - 0x80, i); }
      x := x + Shl(b - 0x80, i);
      i := i + 1;
    }
    r := None;
  }

  /** What is read fits in 64 bits and lies within the first ten bytes. */
  lemma {:induction false} ReadBounds(buf: bytes, i: nat, x: nat)
    requires x < Pow128(i) && i <= 10 && ReadFrom(buf, i, x).Some?
    ensures var (v, n) := ReadFrom(buf, i, x).value;
            v <= U64_MAX && i < n <= 10 && n <= |buf|
    decreases |buf| - i
  {
    var b := buf[i] % 0x80;
    var p := Pow128(i);
    MulLe(b, 127, p);
    assert x + b * p < p + 127 * p == 128 * p == Pow128(i + 1);
    Pow128At9();
    if buf[i] < 0x80 {
      if i < 9 { Pow128Monotone(i + 1, 9); }
    } else {
      ReadBounds(buf, i + 1, x + Group(b, i));
    }
  }

  // ----- round trip -----

  lemma Split(x: nat, i: nat)
    ensures x * Pow128(i) == (x % 0x80) * Pow128(i) + (x / 0x80) * Pow128(i + 1)
  {
    var p := Pow128(i);
    assert x == x % 0x80 + 0x80 * (x / 0x80);
    calc {
      x * p;
      (x % 0x80 + 0x80 * (x / 0x80)) * p;
      (x % 0x80) * p + (0x80 * (x / 0x80)) * p;
      (x % 0x80) * p + (x / 0x80) * (0x80 * p);
    }
  }

  /** Only the last bit of 64 is left for the tenth group. */
  lemma LastGroup(i: nat, x: nat)
    requires x * Pow128(i) <= U64_MAX && (i == 0 || x > 0)
    ensures i <= 9 && (i == 9 ==> x <= 1)
  {
    Pow128At9();
    if i >= 9 {
      Pow128Monotone(9, i);
      MulLe(1, x, Pow128(i));
      if x > 1 { MulLe(2, x, Pow128(i)); }
      if i > 9 { assert Pow128(10) == 128 * Pow128(9); Pow128Monotone(10, i); }
    }
  }

  lemma {:induction false} ReadAt(buf: bytes, i: nat, acc: nat, x: nat)
    requires i <= |buf| && Put(x) <= buf[i..]
    requires x * Pow128(i) <= U64_MAX && (i == 0 || x > 0)
    ensures ReadFrom(buf, i, acc) == Some((acc + x * Pow128(i), i + |Put(x)|))
    decreases x
  {
    hide Pow128;
    assert Put(x)[0] == buf[i..][0] == buf[i];
    LastGroup(i, x);
    if x >= 0x80 {
      Split(x, i);
      assert Put(x)[1..] == Put(x / 0x80);
      assert buf[i + 1..] == buf[i..][1..];
      ReadAt(buf, i + 1, acc + (x % 0x80) * Pow128(i), x / 0x80);
    }
  }

  /** A written varint reads back, whatever follows it. */
  lemma ReadInvertsPut(x: u64, rest: bytes)
    ensures Read(Put(x) + rest) == Some((x, |Put(x)|))
  {
    var buf := Put(x) + rest;
    assert buf[0..] == buf;
    assert x * Pow128(0) == x;
    ReadAt(buf, 0, 0, x);
  }

  /** No varint is a prefix of another. */
  lemma PrefixFree(x: u64, a: bytes, y: u64, b: bytes)
    requires Put(x) + a <= Put(y) + b
    ensures x == y && a <= b
  {
    var s := Put(y) + b;
    var t := s[|Put(x) + a|..];
    assert s == Put(x) + (a + t) by { assert s == (Put(x) + a) + t; }
    ReadInvertsPut(x, a + t);
    ReadInvertsPut(y, b);
    assert s[|Put(x)|..] == b && s[|Put(x)|..] == a + t;
  }
}
