/** Which bytes parse as a varint and as a user key, and when they are the ones that would be built. */
module KeyParsing {
  import opened Bytes
  import opened Uvarint
  import opened ArchiveKeys

  // ----- varints -----

  /** The first n bytes are those up to the first without a continuation bit. */
  predicate EndsAt(buf: bytes, n: nat) {
    0 < n <= |buf| && buf[n - 1] < 0x80 && forall j :: 0 <= j < n - 1 ==> buf[j] >= 0x80
  }

  /** The number that seven-bit groups spell, least significant first. */
  function Spelled(s: bytes): nat
    requires EndsAt(s, |s|)
  {
    if |s| == 1 then s[0] else (s[0] - 0x80) + 0x80 * Spelled(s[1..])
  }

  /** A varint reads if and only if it ends within ten bytes, the tenth at most 1. */
  lemma ReadIff(buf: bytes, n: nat)
    requires EndsAt(buf, n)
    ensures EndsAt(buf[..n], n)
    ensures Read(buf) == if n < 10 || (n == 10 && buf[9] <= 1) then Some((Spelled(buf[..n]), n)) else None
  {
    assert EndsAt(buf[..n], |buf[..n]|);
    assert buf[..n][0..] == buf[..n];
    ReadFromIff(buf, n, 0, 0);
    assert Spelled(buf[..n]) * Pow128(0) == Spelled(buf[..n]);
  }

  lemma EndsLater(buf: bytes, n: nat, i: nat)
    requires EndsAt(buf, n) && i < n
    ensures EndsAt(buf[i..n], n - i)
  {
    var s := buf[i..n];
    assert s[n - i - 1] == buf[n - 1];
    assert forall j :: 0 <= j < n - i - 1 ==> s[j] == buf[i + j];
  }

  lemma {:induction false} ReadFromIff(buf: bytes, n: nat, i: nat, x: nat)
    requires EndsAt(buf, n) && i < n && i <= 10
    ensures EndsAt(buf[i..n], |buf[i..n]|)
    ensures ReadFrom(buf, i, x)
         == if n < 10 || (n == 10 && buf[9] <= 1) then Some((x + Spelled(buf[i..n]) * Pow128(i), n)) else None
    decreases n - i
  {
    hide Pow128;
    EndsLater(buf, n, i);
    var s := buf[i..n];
    assert s[0] == buf[i];
    if i < n - 1 && i < 10 {
      ReadFromIff(buf, n, i + 1, x + Group(buf[i] - 0x80, i));
      assert s[1..] == buf[i + 1..n];
      GroupsJoin(s[0] - 0x80, Spelled(s[1..]), i);
    }
  }

  lemma GroupsJoin(low: nat, high: nat, i: nat)
    ensures (low + 0x80 * high) * Pow128(i) == Group(low, i) + high * Pow128(i + 1)
  {
    var p := Pow128(i);
    calc {
      (low + 0x80 * high) * p;
      low * p + (0x80 * high) * p;
      low * p + high * (0x80 * p);
    }
  }

  /** Without such an end there is nothing to read. */
  lemma NeverEnds(buf: bytes)
    requires forall n: nat :: !EndsAt(buf, n)
    ensures Read(buf) == None
  {
    ContinuesOn(buf, 0, 0);
  }

  lemma {:induction false} ContinuesOn(buf: bytes, i: nat, x: nat)
    requires (forall n: nat :: !EndsAt(buf, n)) && forall j :: 0 <= j < i && j < |buf| ==> buf[j] >= 0x80
    ensures ReadFrom(buf, i, x) == None
    decreases |buf| - i
  {
    if i < |buf| && i != 10 {
      if buf[i] < 0x80 { assert EndsAt(buf, i + 1); }
      ContinuesOn(buf, i + 1, x + Group(buf[i] - 0x80, i));
    }
  }

  /** A written varint spells its number, and ends in a zero only if it is one byte. */
  lemma {:induction false} PutEnds(x: nat)
    ensures EndsAt(Put(x), |Put(x)|) && Spelled(Put(x)) == x
    ensures |Put(x)| == 1 || Put(x)[|Put(x)| - 1] != 0
  {
    if x >= 0x80 {
      PutEnds(x / 0x80);
      var rest := Put(x / 0x80);
      assert Put(x)[1..] == rest;
      forall j | 0 <= j < |Put(x)| - 1 ensures Put(x)[j] >= 0x80 { if j > 0 { assert Put(x)[j] == rest[j - 1]; } }
      assert Put(x)[|Put(x)| - 1] == rest[|rest| - 1];
      if |rest| == 1 { assert rest == [x / 0x80]; }
    }
  }

  lemma {:induction false} WrittenBack(s: bytes)
    requires EndsAt(s, |s|) && s[|s| - 1] != 0
    ensures Put(Spelled(s)) == s && Spelled(s) > 0
  {
    if |s| > 1 {
      EndsLater(s, |s|, 1);
      var rest := s[1..];
      assert rest[|rest| - 1] == s[|s| - 1];
      WrittenBack(rest);
      assert Spelled(s) % 0x80 == s[0] - 0x80 && Spelled(s) / 0x80 == Spelled(rest);
      assert s == [s[0]] + rest;
    }
  }

  /** The bytes are the ones that are written for their number if and only if they do not end in a needless zero. */
  lemma MinimalIff(s: bytes)
    requires EndsAt(s, |s|)
    ensures Put(Spelled(s)) == s <==> |s| == 1 || s[|s| - 1] != 0
  {
    if |s| > 1 && s[|s| - 1] != 0 {
      WrittenBack(s);
    } else if |s| > 1 {
      PutEnds(Spelled(s));
    }
  }

  // ----- user keys -----

  /** What parsing makes of any bytes: a length prefix that does not read is one error, any length but the prefix, the
      key it announces and eight bytes is another. */
  lemma ParseIs(dbKey: bytes)
    requires |dbKey| <= ISIZE_MAX
    ensures match Read(dbKey)
            case None => Parse(dbKey) == Err(ParsingKeyLength)
            case Some((len, n)) =>
              && n <= |dbKey|
              && (n + len + 8 != |dbKey| ==> Parse(dbKey) == Err(IncorrectKeyLength))
              && (n + len + 8 == |dbKey| ==>
                    Parse(dbKey) == Ok((dbKey[n..n + len], U64_MAX - FromBE(dbKey[n + len..]))))
  {
    if Read(dbKey).Some? { ReadBounds(dbKey, 0, 0); }
  }

  /** Bytes that parse are the ones built from their key and height if and only if their length prefix is minimal. */
  lemma BuiltIff(dbKey: bytes, key: Slice, height: u64)
    requires |dbKey| <= ISIZE_MAX && Parse(dbKey) == Ok((key, height))
    ensures Read(dbKey).Some? && Read(dbKey).value.1 <= |dbKey|
    ensures UserKey(key, height) == dbKey <==> dbKey[..Read(dbKey).value.1] == Put(|key|)
  {
    hide Read, Put, BE, FromBE, Parse, UserKey;
    ParseIs(dbKey);
    var (len, n) := Read(dbKey).value;
    Joined(dbKey, n, n + len);
    RebuiltIff(dbKey[..n], key, dbKey[n + len..], height, dbKey);
  }

  lemma RebuiltIff(prefix: bytes, key: Slice, tail: bytes, height: u64, dbKey: bytes)
    requires |tail| == 8 && U64_MAX - height == FromBE(tail) && dbKey == prefix + key + tail
    ensures UserKey(key, height) == dbKey <==> prefix == Put(|key|)
  {
    hide Put, FromBE, BE;
    BECanonical(tail);
    Cancel(prefix, Put(|key|), key, tail, dbKey, UserKey(key, height));
  }

  lemma Joined(s: bytes, n: nat, m: nat)
    requires n <= m <= |s|
    ensures s == s[..n] + s[n..m] + s[m..]
  {
  }

  lemma Cancel(a: bytes, b: bytes, c: bytes, d: bytes, x: bytes, y: bytes)
    requires x == a + c + d && y == b + c + d
    ensures y == x <==> a == b
  {
    if x == y {
      assert |a| == |b|;
      assert x[..|a|] == a && y[..|b|] == b;
    }
  }

  /** The bytes of a user key: the varint of its length, the key, and the height with every bit flipped, most
      significant byte first. */
  lemma UserKeyAt(key: Slice, height: u64, i: nat)
    requires i < |Put(|key|)| + |key| + 8
    ensures var n := |Put(|key|)|;
            && |UserKey(key, height)| == n + |key| + 8
            && UserKey(key, height)[i]
               == if i < n then Put(|key|)[i]
                  else if i < n + |key| then key[i - n]
                  else Digit(U64_MAX - height, 7 - (i - n - |key|))
  {
    hide Put, BE, Digit;
    var n := |Put(|key|)|;
    if i >= n + |key| { BEAt(U64_MAX - height, 8, i - n - |key|); }
  }

  /** A stored value is a zero byte and the value; a tombstone is nothing; and what is stored reads back. */
  lemma StoredAt(value: bytes, i: nat)
    requires i <= |value|
    ensures |Stored(Some(value))| == 1 + |value| && Stored(None) == []
    ensures Stored(Some(value))[i] == if i == 0 then 0 else value[i - 1]
  {
  }
}
