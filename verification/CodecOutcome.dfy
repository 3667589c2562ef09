/** Exactly what the manager makes of any bytes and any value: which are read, which are refused, and why. */
module CodecOutcome {
  import opened Bytes
  import opened Packing
  import opened Ordered
  import opened Wire
  import opened Marshal
  import opened Unmarshal
  import opened DecodeSafety
  import opened Canonical
  import opened RoundTrip
  import opened KeyOrders
  import opened CodecManager

  // ----- unmarshalling -----

  /** The refusals before the value is read: by the length of the input, and by its first two bytes. */
  lemma UnmarshalRefusals(less: Order, versions: set<u16>, maxSize: usize, ty: Ty, src: bytes)
    requires KeyOrder(less)
    ensures var r := UnmarshalWith(less, versions, maxSize, ty, src);
            && (r == Err(UnmarshalTooBig) <==> |src| > maxSize)
            && (r == Err(CantUnpackVersion) <==> |src| <= maxSize && |src| < 2)
            && (r == Err(UnknownVersion) <==> |src| <= maxSize && |src| >= 2 && FromBE(src[..2]) !in versions)
  {
    hide Get;
    Pow256Values();
    if 2 <= |src| <= maxSize { assert src[0..2] == src[..2]; }
  }

  /** The input is exactly a registered version and the bytes of a value that can be read back. */
  predicate IsEncoding(less: Order, versions: set<u16>, maxSize: usize, ty: Ty, src: bytes, version: u16, v: Val)
    requires HasType(less, ty, v)
  {
    && |src| <= maxSize && version in versions && Decodable(less, ty, v) && src == BE(version, 2) + Enc(less, ty, v)
  }

  lemma ReadsExactly(less: Order, versions: set<u16>, maxSize: usize, ty: Ty, src: bytes, version: u16, v: Val)
    requires KeyOrder(less) && HasType(less, ty, v)
    requires UnmarshalWith(less, versions, maxSize, ty, src) == Ok((version, v))
    requires KeysFit(less, ty, v) || |src| <= I32_MAX
    ensures IsEncoding(less, versions, maxSize, ty, src, version, v)
  {
    hide Get, Enc, HasType, Decodable, KeysFit;
    var version', v', s, s' := UnmarshalSteps(less, versions, maxSize, ty, src);
    DecodeIsRead(less, ty, s);
    ConsumedThen(NewRead(src), s, s', BE(version, 2), Enc(less, ty, v));
    assert src[0..0 + |src|] == src;
  }

  /** The input unmarshals to a version and a value, with small counts in its map keys, if and only if it is their
      encoding and not too long. */
  lemma UnmarshalsIff(less: Order, versions: set<u16>, maxSize: usize, ty: Ty, src: bytes, version: u16, v: Val)
    requires KeyOrder(less) && DistinctIds(ty) && HasType(less, ty, v)
    ensures UnmarshalWith(less, versions, maxSize, ty, src) == Ok((version, v)) && KeysFit(less, ty, v)
       <==> IsEncoding(less, versions, maxSize, ty, src, version, v)
  {
    hide UnmarshalWith, Enc, HasType, Decodable, KeysFit;
    if IsEncoding(less, versions, maxSize, ty, src, version, v) {
      DecodableKeysFit(less, ty, v);
      UnmarshalEncoded(less, versions, maxSize, version, ty, v);
    } else if UnmarshalWith(less, versions, maxSize, ty, src) == Ok((version, v)) && KeysFit(less, ty, v) {
      ReadsExactly(less, versions, maxSize, ty, src, version, v);
    }
  }

  /** Up to i32::MAX bytes, whatever the value. */
  lemma ShortUnmarshalsIff(less: Order, versions: set<u16>, maxSize: usize, ty: Ty, src: bytes, version: u16, v: Val)
    requires KeyOrder(less) && DistinctIds(ty) && HasType(less, ty, v) && |src| <= I32_MAX
    ensures UnmarshalWith(less, versions, maxSize, ty, src) == Ok((version, v))
       <==> IsEncoding(less, versions, maxSize, ty, src, version, v)
  {
    hide UnmarshalWith, Enc, HasType, Decodable, KeysFit;
    if IsEncoding(less, versions, maxSize, ty, src, version, v) {
      UnmarshalEncoded(less, versions, maxSize, version, ty, v);
    } else if UnmarshalWith(less, versions, maxSize, ty, src) == Ok((version, v)) {
      ReadsExactly(less, versions, maxSize, ty, src, version, v);
    }
  }

  /** Bytes behind an encoding are refused as extra space. */
  lemma ExtraIsRefused(less: Order, versions: set<u16>, maxSize: usize, version: u16, ty: Ty, v: Val, extra: bytes)
    requires KeyOrder(less) && DistinctIds(ty) && HasType(less, ty, v) && Decodable(less, ty, v) && extra != []
    requires version in versions && |Enc(less, ty, v)| + VERSION_SIZE + |extra| <= maxSize
    ensures UnmarshalWith(less, versions, maxSize, ty, BE(version, 2) + Enc(less, ty, v) + extra) == Err(ExtraSpace)
  {
    hide Get, Enc, HasType, Decodable;
    var data := Enc(less, ty, v) + extra;
    var src := BE(version, 2) + data;
    assert src == BE(version, 2) + Enc(less, ty, v) + extra;
    var s := NewRead(src);
    assert src[0..0 + |src|] == src;
    AtSplit(s, BE(version, 2), data);
    Pow256Values();
    TakeIntAt(s, version, 2);
    AtSplit(Skip(s, BE(version, 2)), Enc(less, ty, v), extra);
    DecodeInvertsEncode(less, ty, v, Skip(s, BE(version, 2)));
  }

  /** And only they are. */
  lemma ExtraMeans(less: Order, versions: set<u16>, maxSize: usize, ty: Ty, src: bytes)
    returns (version: u16, v: Val, extra: bytes)
    requires KeyOrder(less) && UnmarshalWith(less, versions, maxSize, ty, src) == Err(ExtraSpace)
    ensures version in versions && HasType(less, ty, v) && extra != []
    ensures KeysFit(less, ty, v) || |src| <= I32_MAX ==>
              Decodable(less, ty, v) && src == BE(version, 2) + Enc(less, ty, v) + extra
  {
    hide Enc, HasType, Decodable, KeysFit;
    Pow256Values();
    var (n, s) := TakeInt(NewRead(src), 2);
    TakeIntConsumes(NewRead(src), 2);
    version := n;
    var (x, s') := Get(less, ty, s);
    hide Get;
    DecodeIsSafe(less, ty, s);
    v, extra := x.value, src[s'.off..];
    if KeysFit(less, ty, v) || |src| <= I32_MAX {
      DecodeIsRead(less, ty, s);
      ConsumedThen(NewRead(src), s, s', BE(version, 2), Enc(less, ty, v));
      assert src == src[0..s'.off] + extra;
    }
  }

  /** No encoding is a proper prefix of another, so a cut input is never taken for the value it was cut from. */
  lemma EncPrefixFree(less: Order, ty: Ty, a: Val, b: Val)
    requires KeyOrder(less) && DistinctIds(ty)
    requires HasType(less, ty, a) && Decodable(less, ty, a) && HasType(less, ty, b) && Decodable(less, ty, b)
    requires Enc(less, ty, a) <= Enc(less, ty, b) && |Enc(less, ty, b)| <= USIZE_MAX
    ensures a == b
  {
    hide Get, Enc, HasType, Decodable;
    var s := NewRead(Enc(less, ty, b));
    DecodeInvertsEncode(less, ty, a, s);
    DecodeInvertsEncode(less, ty, b, s);
  }

  // ----- a value outside the condition -----

  function LongKey(): Val {
    Dict([(Zeros(I32_MAX + 1), Num(0))])
  }

  /** A map whose one key is a list of 2^31 bytes: the marshaller refuses such a key, but where it is the only one its
      place among the others is never asked for, and the map is read. */
  lemma LongKeyIsRead(version: u16)
    ensures var ty, v := Map(Vec(U8), U8), LongKey();
            && KeyOrder(CodeLess) && HasType(CodeLess, ty, v)
            && !KeysFit(CodeLess, ty, v) && !Decodable(CodeLess, ty, v)
            && UnmarshalWith(CodeLess, {version}, USIZE_MAX, ty, BE(version, 2) + Enc(CodeLess, ty, v))
               == Ok((version, v))
  {
    CodeLessIsKeyOrder();
    LongKeyTyped();
    LongKeyGets(version);
  }

  /** A map of one entry is its count, its key and its value. */
  lemma OneEntry(less: Order, ty: Ty, k: Val, x: Val)
    requires ty.Map? && HasType(less, ty.key, k) && HasType(less, ty.val, x)
    ensures HasType(less, ty, Dict([(k, x)])) && EntriesTyped(less, ty, [(k, x)])
    ensures Enc(less, ty, Dict([(k, x)])) == BE(1, 4) + (Enc(less, ty.key, k) + Enc(less, ty.val, x))
  {
    var es := [(k, x)];
    OneKeyed(less, ty, k, x);
    var ks := KeyAll(less, ty, es);
    assert SortKeyed(ks) == ks by { assert ks[..0] == [] && SortKeyed([]) == []; }
    OneEncoded(less, ty, ks);
  }

  lemma OneKeyed(less: Order, ty: Ty, k: Val, x: Val)
    requires ty.Map? && HasType(less, ty.key, k) && HasType(less, ty.val, x)
    ensures EntriesTyped(less, ty, [(k, x)]) && KeyAll(less, ty, [(k, x)]) == [(Enc(less, ty.key, k), x)]
  {
    var es := [(k, x)];
    assert EntriesTyped(less, ty, es);
    KeyAllAt(less, ty, es, 0);
  }

  lemma OneEncoded(less: Order, ty: Ty, ks: seq<Keyed>)
    requires ty.Map? && |ks| == 1 && KeyedTyped(less, ty, ks) && HasType(less, ty.val, ks[0].1)
    ensures EncKeyed(less, ty, ks) == ks[0].0 + Enc(less, ty.val, ks[0].1)
  {
    hide Enc;
    assert ks[1..] == [];
  }

  lemma ZerosRead(less: Order)
    ensures var k := Zeros(I32_MAX + 1);
            && HasType(less, Vec(U8), k) && Decodable(less, Vec(U8), k) && !CountsFit(less, Vec(U8), k)
            && |Enc(less, Vec(U8), k)| == I32_MAX + 5
  {
    ByteElems(less, Zeros(I32_MAX + 1).elems);
    Pow256Values();
  }

  lemma LongKeyTyped()
    ensures var ty, v, k := Map(Vec(U8), U8), LongKey(), Zeros(I32_MAX + 1);
            && HasType(CodeLess, ty, v) && HasType(CodeLess, ty.key, k) && HasType(CodeLess, ty.val, Num(0))
            && Decodable(CodeLess, ty.key, k) && !KeysFit(CodeLess, ty, v) && !Decodable(CodeLess, ty, v)
            && Enc(CodeLess, ty, v) == BE(1, 4) + (Enc(CodeLess, ty.key, k) + Enc(CodeLess, ty.val, Num(0)))
            && |Enc(CodeLess, ty, v)| == 10 + I32_MAX
  {
    var ty, v, k := Map(Vec(U8), U8), LongKey(), Zeros(I32_MAX + 1);
    ZerosRead(CodeLess);
    hide Zeros, CountsFit, Encodable;
    Pow256Values();
    assert HasType(CodeLess, U8, Num(0)) && Enc(CodeLess, U8, Num(0)) == BE(0, 1);
    OneEntry(CodeLess, ty, k, Num(0));
    assert v.entries[0] == (k, Num(0));
    if Decodable(CodeLess, ty, v) { DecodableKeysFit(CodeLess, ty, v); }
  }

  /** Bytes behind a registered version that read as a value, to the end. */
  lemma UnmarshalAt(less: Order, version: u16, ty: Ty, v: Val, data: bytes) returns (s: PState)
    requires KeyOrder(less) && |data| + 2 <= USIZE_MAX
    ensures At(s, data)
    ensures Get(less, ty, s) == (Some(v), Skip(s, data)) ==>
              UnmarshalWith(less, {version}, USIZE_MAX, ty, BE(version, 2) + data) == Ok((version, v))
  {
    hide Get;
    var src := BE(version, 2) + data;
    var s0 := NewRead(src);
    assert src[0..0 + |src|] == src;
    Pow256Values();
    AtSplit(s0, BE(version, 2), data);
    TakeIntAt(s0, version, 2);
    s := Skip(s0, BE(version, 2));
  }

  lemma LongKeyGets(version: u16)
    requires KeyOrder(CodeLess) && HasType(CodeLess, Map(Vec(U8), U8), LongKey())
    ensures var ty, v := Map(Vec(U8), U8), LongKey();
            UnmarshalWith(CodeLess, {version}, USIZE_MAX, ty, BE(version, 2) + Enc(CodeLess, ty, v)) == Ok((version, v))
  {
    hide UnmarshalWith, Get, Enc, HasType, Decodable, Encodable, CountsFit, KeysFit, Zeros;
    var ty, v, k := Map(Vec(U8), U8), LongKey(), Zeros(I32_MAX + 1);
    LongKeyTyped();
    var s := UnmarshalAt(CodeLess, version, ty, v, Enc(CodeLess, ty, v));
    LongKeyAt(ty, v, k, s);
  }

  lemma LongKeyAt(ty: Ty, v: Val, k: Val, s: PState)
    requires KeyOrder(CodeLess) && ty == Map(Vec(U8), U8) && v == Dict([(k, Num(0))])
    requires HasType(CodeLess, ty, v) && HasType(CodeLess, ty.key, k) && HasType(CodeLess, ty.val, Num(0))
    requires Decodable(CodeLess, ty.key, k)
    requires Enc(CodeLess, ty, v) == BE(1, 4) + (Enc(CodeLess, ty.key, k) + Enc(CodeLess, ty.val, Num(0)))
    requires At(s, Enc(CodeLess, ty, v))
    ensures Get(CodeLess, ty, s) == (Some(v), Skip(s, Enc(CodeLess, ty, v)))
  {
    var kb, vb := Enc(CodeLess, ty.key, k), Enc(CodeLess, ty.val, Num(0));
    hide Enc, HasType, KeyState;
    Pow256Values();
    AtSplit(s, BE(1, 4), kb + vb);
    TakeIntAt(s, 1, 4);
    var s1 := Skip(s, BE(1, 4));
    AtSplit(s1, kb, vb);
    DecodeInvertsEncode(CodeLess, ty.key, k, s1);
    var s2 := Skip(s1, kb);
    DecodeInvertsEncode(CodeLess, ty.val, Num(0), s2);
    var s3 := Skip(s2, vb);
    EmptyDict(CodeLess, ty);
    InsertEntryTyped(CodeLess, ty, [], k, Num(0));
    EntryLoopTurns(CodeLess, ty, 1, s1, None, [], k, Num(0), s2, s3, KeyState(CodeLess, ty.key, k).buf);
    assert InsertEntry(CodeLess, [], k, Num(0)) == [(k, Num(0))];
    NoEntries(CodeLess, ty, s3, Some(KeyState(CodeLess, ty.key, k).buf), [(k, Num(0))]);
    hide GetEntries;
  }

  // ----- marshalling -----

  /** What marshalling gives, of any value at any version: the refusals come in this order, the last of them with the
      packer's own error. */
  lemma MarshalIs(less: Order, versions: set<u16>, maxSize: usize, version: u16, ty: Ty, v: Val)
    requires HasType(less, ty, v)
    ensures var r := MarshalWith(less, versions, maxSize, version, ty, v);
            if version !in versions then r == Err(UnknownVersion)
            else if |Enc(less, ty, v)| + VERSION_SIZE > USIZE_MAX then r == Err(MaxSliceLenExceeded)
            else if Encodable(less, ty, v) then r == Ok(BE(version, 2) + Enc(less, ty, v))
            else r == Err(MaxSliceLenExceeded) || r == Err(PackerFailed(InvalidInput))
  {
    hide Enc, Encodable, Size;
    SizeExact(less, ty, v);
    if version in versions && |Enc(less, ty, v)| + VERSION_SIZE <= USIZE_MAX {
      MarshalOutcome(less, versions, maxSize, version, ty, v);
    }
  }
}
