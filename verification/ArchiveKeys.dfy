/** The archive's keys and stored values: user keys stamped with a height, and metadata keys. */
module ArchiveKeys {
  import opened Bytes
  import opened Uvarint

  /** The longest byte slice there is. */
  const ISIZE_MAX: nat := 0x7FFF_FFFF_FFFF_FFFF

  type Slice = s: bytes | |s| <= ISIZE_MAX

  datatype Error = NotFound | ParsingKeyLength | IncorrectKeyLength | BadHeight
  datatype Result<+T> = Ok(value: T) | Err(error: Error)

  const HEIGHT_KEY: bytes := [0x01]

  function Not64(h: u64): u64 {
    U64_MAX - h
  }

  function UserPrefix(key: Slice): bytes {
    Put(|key|) + key
  }

  function UserKey(key: Slice, height: u64): bytes {
    UserPrefix(key) + BE(Not64(height), 8)
  }

  function MetaKey(key: Slice): bytes {
    Put(SatAdd(|key|, 1)) + key
  }

  method NewDbKeyFromUser(key: Slice, height: u64) returns (dbKey: bytes, prefix: bytes)
    ensures dbKey == UserKey(key, height) && prefix == UserPrefix(key)
  {
    var buf, _ := PutUvarint([], |key|);
    prefix := buf + key;
    dbKey := prefix + BE(Not64(height), 8);
  }

  method NewDbKeyFromMetadata(key: Slice) returns (dbKey: bytes)
    ensures dbKey == MetaKey(key)
  {
    var buf, _ := PutUvarint([], SatAdd(|key|, 1));
    dbKey := buf + key;
  }

  function Parse(dbKey: bytes): Result<(bytes, u64)> {
    match Read(dbKey)
    case None => Err(ParsingKeyLength)
    case Some((keyLen, offset)) =>
      var heightIndex := SatAdd(offset, keyLen);
      if |dbKey| != SatAdd(heightIndex, 8) || heightIndex + 8 != |dbKey| || offset > heightIndex then
        Err(IncorrectKeyLength)
      else
        Pow256Values();
        Ok((dbKey[offset..heightIndex], Not64(FromBE(dbKey[heightIndex..]))))
  }

  method ParseDbKeyFromUser(dbKey: bytes) returns (r: Result<(bytes, u64)>)
    ensures r == Parse(dbKey)
  {
    var head := ReadUvarint(dbKey);
    if head.None? { return Err(ParsingKeyLength); }
    var (keyLen, offset) := head.value;
    var heightIndex := SatAdd(offset, keyLen);
    if |dbKey| != SatAdd(heightIndex, 8) { return Err(IncorrectKeyLength); }
    if !(offset <= heightIndex <= |dbKey|) { return Err(IncorrectKeyLength); }
    var suffix := dbKey[heightIndex..];
    if |suffix| != 8 { return Err(IncorrectKeyLength); }
    Pow256Values();
    r := Ok((dbKey[offset..heightIndex], Not64(FromBE(suffix))));
  }

  // ----- what the encodings guarantee -----

  /** Parsing a built user key returns the same key and height. */
  lemma ParseInvertsBuild(key: Slice, height: u64)
    ensures Parse(UserKey(key, height)) == Ok((key, height))
  {
    var tail := BE(Not64(height), 8);
    var dbKey := UserKey(key, height);
    assert dbKey == Put(|key|) + (key + tail);
    ReadInvertsPut(|key|, key + tail);
    PutShort(|key|);
    var n := |Put(|key|)|;
    assert dbKey[n..n + |key|] == key && dbKey[n + |key|..] == tail;
    Pow256Values();
    BERoundTrip(Not64(height), 8);
  }

  lemma {:induction false} PutBounds(x: nat, i: nat)
    requires i >= 1 && x < Pow128(i)
    ensures |Put(x)| <= i
    decreases x
  {
    if x >= 0x80 {
      assert i > 1 by { assert Pow128(1) == 128 * Pow128(0); }
      assert x / 0x80 < Pow128(i - 1);
      PutBounds(x / 0x80, i - 1);
    }
  }

  lemma PutShort(x: u64)
    ensures |Put(x)| <= 10
  {
    Pow128At9();
    assert Pow128(10) == 128 * Pow128(9);
    PutBounds(x, 10);
  }

  lemma UserKeyInjective(k: Slice, h: u64, k': Slice, h': u64)
    requires UserKey(k, h) == UserKey(k', h')
    ensures k == k' && h == h'
  {
    ParseInvertsBuild(k, h);
    ParseInvertsBuild(k', h');
  }

  /** Only entries of the key itself start with its prefix. */
  lemma UserPrefixIsolated(k: Slice, k': Slice, h': u64)
    ensures UserPrefix(k) <= UserKey(k', h') <==> k == k'
  {
    if UserPrefix(k) <= UserKey(k', h') {
      var tail := BE(Not64(h'), 8);
      assert UserKey(k', h') == Put(|k'|) + (k' + tail);
      PrefixFree(|k|, k, |k'|, k' + tail);
      assert (k' + tail)[..|k|] == k';
    }
  }

  /** No metadata entry starts with a user key's prefix, and none is a user key. */
  lemma MetaKeyIsolated(k: Slice, h: u64, m: Slice)
    ensures !(UserPrefix(k) <= MetaKey(m))
    ensures MetaKey(m) != UserKey(k, h)
  {
    if UserPrefix(k) <= MetaKey(m) { PrefixFree(|k|, k, |m| + 1, m); }
    assert UserPrefix(k) <= UserKey(k, h);
  }

  /** The converse isolation is not absolute: a metadata key is a prefix of exactly those user entries whose
      key extends the metadata key's by one byte. */
  lemma MetaKeyPrefixIff(k: Slice, h: u64, m: Slice)
    ensures MetaKey(m) <= UserKey(k, h) <==> |k| == |m| + 1 && m <= k
  {
    var tail := BE(Not64(h), 8);
    assert UserKey(k, h) == Put(|k|) + (k + tail);
    if MetaKey(m) <= UserKey(k, h) {
      PrefixFree(|m| + 1, m, |k|, k + tail);
      assert (k + tail)[..|m|] == k[..|m|];
    }
    if |k| == |m| + 1 && m <= k {
      assert UserKey(k, h) == MetaKey(m) + (k[|m|..] + tail);
    }
  }

  lemma HeightKeyIsMetadata()
    ensures HEIGHT_KEY == MetaKey([])
  {
    assert Put(1) == [1];
  }

  /** Ascending byte order over one key's entries is descending height. */
  lemma UserKeyOrder(k: Slice, h: u64, h': u64)
    ensures Lt(UserKey(k, h), UserKey(k, h')) <==> h > h'
    ensures Le(UserKey(k, h), UserKey(k, h')) <==> h >= h'
  {
    Pow256Values();
    BEOrder(Not64(h), Not64(h'), 8);
    LtPrefix(UserPrefix(k), BE(Not64(h), 8), BE(Not64(h'), 8));
    if UserKey(k, h) == UserKey(k, h') { UserKeyInjective(k, h, k, h'); }
  }

  // ----- stored values -----

  /** A tombstone is stored as no bytes, a value behind one byte. */
  function Stored(value: Option<bytes>): bytes {
    if value.None? then [] else [0x00] + value.value
  }

  function ParseValue(v: bytes): (bytes, bool) {
    if v == [] then ([], false) else (v[1..], true)
  }

  /** An empty value is told apart from a tombstone. */
  lemma ParseInvertsStored(value: Option<bytes>)
    ensures ParseValue(Stored(value)) == (if value.None? then ([], false) else (value.value, true))
  {
    if value.Some? { assert Stored(value)[1..] == value.value; }
  }
}
