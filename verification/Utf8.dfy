/** Well-formed UTF-8 is exactly what Unicode scalar values are written as. */
module Utf8 {
  import opened Bytes
  import opened Packing

  /** A code point that is not half of a surrogate pair. */
  predicate Scalar(c: nat) {
    c <= 0x10FFFF && !(0xD800 <= c <= 0xDFFF)
  }

  /** Six bits in a continuation byte. */
  function Low(c: nat): byte {
    0x80 + c % 0x40
  }

  function Encoded(c: nat): bytes
    requires Scalar(c)
  {
    if c < 0x80 then [c]
    else if c < 0x800 then [0xC0 + c / 0x40, Low(c)]
    else if c < 0x1_0000 then [0xE0 + c / 0x1000, Low(c / 0x40), Low(c)]
    else [0xF0 + c / 0x4_0000, Low(c / 0x1000), Low(c / 0x40), Low(c)]
  }

  predicate Scalars(cs: seq<nat>) {
    forall i :: 0 <= i < |cs| ==> Scalar(cs[i])
  }

  function Text(cs: seq<nat>): bytes
    requires Scalars(cs)
  {
    if cs == [] then [] else Encoded(cs[0]) + Text(cs[1..])
  }

  lemma TwoBytes(c: nat)
    requires 0x80 <= c < 0x800
    ensures 0xC2 <= 0xC0 + c / 0x40 <= 0xDF
  {
  }

  lemma ThreeBytes(c: nat)
    requires 0x800 <= c < 0x1_0000 && Scalar(c)
    ensures 0xE0 <= 0xE0 + c / 0x1000 <= 0xEF
    ensures c / 0x1000 == 0 ==> Low(c / 0x40) >= 0xA0
    ensures c / 0x1000 == 0xD ==> Low(c / 0x40) <= 0x9F
  {
    var h := c / 0x40;
    assert h / 0x40 == c / 0x1000;
  }

  lemma FourBytes(c: nat)
    requires 0x1_0000 <= c <= 0x10FFFF
    ensures 0xF0 <= 0xF0 + c / 0x4_0000 <= 0xF4
    ensures c / 0x4_0000 == 0 ==> Low(c / 0x1000) >= 0x90
    ensures c / 0x4_0000 == 4 ==> Low(c / 0x1000) <= 0x8F
  {
    var h := c / 0x1000;
    assert h / 0x40 == c / 0x4_0000;
  }

  lemma OneScalar(c: nat, rest: bytes)
    requires Scalar(c) && ValidUtf8(rest)
    ensures ValidUtf8(Encoded(c) + rest)
  {
    var s := Encoded(c) + rest;
    if c < 0x80 {
      assert s[1..] == rest;
    } else if c < 0x800 {
      TwoBytes(c);
      assert s[2..] == rest;
    } else if c < 0x1_0000 {
      ThreeBytes(c);
      assert s[3..] == rest;
    } else {
      FourBytes(c);
      assert s[4..] == rest;
    }
  }

  lemma {:induction false} TextIsValid(cs: seq<nat>)
    requires Scalars(cs)
    ensures ValidUtf8(Text(cs))
  {
    if cs != [] {
      TextIsValid(cs[1..]);
      OneScalar(cs[0], Text(cs[1..]));
    }
  }

  function Six(b: byte): nat {
    b % 0x40
  }

  lemma SixLow(b: byte, c: nat)
    requires Cont(b) && c % 0x40 == Six(b)
    ensures Low(c) == b
  {
  }

  lemma FromTwo(x: nat, y: nat) returns (c: nat)
    requires 2 <= x < 0x20 && y < 0x40
    ensures 0x80 <= c < 0x800 && c / 0x40 == x && c % 0x40 == y
  {
    c := x * 0x40 + y;
  }

  lemma FromThree(x: nat, y: nat, z: nat) returns (c: nat)
    requires x < 0x10 && y < 0x40 && z < 0x40 && (x == 0 ==> y >= 0x20) && (x == 0xD ==> y < 0x20)
    ensures 0x800 <= c < 0x1_0000 && Scalar(c)
    ensures c / 0x1000 == x && c / 0x40 % 0x40 == y && c % 0x40 == z
  {
    var h := x * 0x40 + y;
    c := h * 0x40 + z;
    assert c / 0x40 == h && h / 0x40 == x && h % 0x40 == y;
  }

  lemma FromFour(x: nat, y: nat, z: nat, w: nat) returns (c: nat)
    requires x < 5 && y < 0x40 && z < 0x40 && w < 0x40 && (x == 0 ==> y >= 0x10) && (x == 4 ==> y < 0x10)
    ensures 0x1_0000 <= c <= 0x10FFFF
    ensures c / 0x4_0000 == x && c / 0x1000 % 0x40 == y && c / 0x40 % 0x40 == z && c % 0x40 == w
  {
    var h := x * 0x40 + y;
    var g := h * 0x40 + z;
    c := g * 0x40 + w;
    assert c / 0x40 == g && g / 0x40 == h && h / 0x40 == x;
    assert c / 0x1000 == h && g % 0x40 == z && h % 0x40 == y;
  }

  /** The first scalar value of well-formed bytes, and how many bytes it takes. */
  lemma FirstScalar(s: bytes) returns (c: nat, n: nat)
    requires s != [] && ValidUtf8(s)
    ensures Scalar(c) && 0 < n <= |s| && Encoded(c) == s[..n] && ValidUtf8(s[n..])
  {
    hide Low, Six;
    var lead: nat := s[0];
    if lead <= 0x7F {
      c, n := lead, 1;
      assert s[..1] == [s[0]];
    } else if lead <= 0xDF {
      n := 2;
      c := FirstOfTwo(s);
    } else if lead <= 0xEF {
      n := 3;
      c := FirstOfThree(s);
    } else {
      n := 4;
      c := FirstOfFour(s);
    }
  }

  lemma FirstOfTwo(s: bytes) returns (c: nat)
    requires |s| >= 2 && 0xC2 <= s[0] <= 0xDF && Cont(s[1])
    ensures Scalar(c) && Encoded(c) == s[..2]
  {
    var lead: nat := s[0];
    c := FromTwo(lead - 0xC0, Six(s[1]));
    SixLow(s[1], c);
  }

  lemma FirstOfThree(s: bytes) returns (c: nat)
    requires |s| >= 3 && 0xE0 <= s[0] <= 0xEF && Cont(s[1]) && Cont(s[2])
    requires (s[0] == 0xE0 ==> s[1] >= 0xA0) && (s[0] == 0xED ==> s[1] <= 0x9F)
    ensures Scalar(c) && Encoded(c) == s[..3]
  {
    var lead: nat := s[0];
    c := FromThree(lead - 0xE0, Six(s[1]), Six(s[2]));
    SixLow(s[1], c / 0x40);
    SixLow(s[2], c);
  }

  lemma FirstOfFour(s: bytes) returns (c: nat)
    requires |s| >= 4 && 0xF0 <= s[0] <= 0xF4 && Cont(s[1]) && Cont(s[2]) && Cont(s[3])
    requires (s[0] == 0xF0 ==> s[1] >= 0x90) && (s[0] == 0xF4 ==> s[1] <= 0x8F)
    ensures Scalar(c) && Encoded(c) == s[..4]
  {
    var lead: nat := s[0];
    c := FromFour(lead - 0xF0, Six(s[1]), Six(s[2]), Six(s[3]));
    SixLow(s[1], c / 0x1000);
    SixLow(s[2], c / 0x40);
    SixLow(s[3], c);
  }

  lemma {:induction false} ValidIsText(s: bytes) returns (cs: seq<nat>)
    requires ValidUtf8(s)
    ensures Scalars(cs) && Text(cs) == s
  {
    if s == [] {
      cs := [];
    } else {
      var c, n := FirstScalar(s);
      var rest := ValidIsText(s[n..]);
      cs := [c] + rest;
      assert cs[1..] == rest && s == s[..n] + s[n..];
    }
  }

  /** Bytes are accepted as a string if and only if scalar values are written that way. */
  lemma ValidIff(s: bytes)
    ensures ValidUtf8(s) <==> exists cs :: Scalars(cs) && Text(cs) == s
  {
    if ValidUtf8(s) { var cs := ValidIsText(s); }
    if exists cs :: Scalars(cs) && Text(cs) == s {
      var cs :| Scalars(cs) && Text(cs) == s;
      TextIsValid(cs);
    }
  }
}
