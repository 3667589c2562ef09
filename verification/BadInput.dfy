/** Which error the reader gives to bytes that no value has. */
module BadInput {
  import opened Bytes
  import opened Packing
  import opened Ordered
  import opened Wire
  import opened Marshal
  import opened Unmarshal
  import opened Canonical
  import opened RoundTrip
  import opened CodecManager

  /** A flag byte above 1. */
  lemma BadFlag(less: Order, s: PState)
    requires KeyOrder(less) && Reading(s) && s.off < |s.buf| && s.buf[s.off] > 1
    ensures Get(less, Bool, s).1.err == Some(BadBool)
  {
    var b := s.buf[s.off..s.off + 1];
    assert b == [s.buf[s.off]] && b[..0] == [];
    assert FromBE(b) == 256 * FromBE(b[..0]) + b[0];
  }

  /** Text that is not UTF-8. */
  lemma BadText(less: Order, s: PState, raw: bytes)
    requires KeyOrder(less) && |raw| <= U16_MAX && !ValidUtf8(raw) && At(s, BE(|raw|, 2) + raw)
    ensures Get(less, Str, s).1.err == Some(InvalidInput)
  {
    Pow256Values();
    AtSplit(s, BE(|raw|, 2), raw);
    TakeIntAt(s, |raw|, 2);
    TakeAt(Skip(s, BE(|raw|, 2)), raw);
  }

  /** A type id that no variant has. */
  lemma UnknownVariant(less: Order, ty: Ty, s: PState, id: u32)
    requires KeyOrder(less) && ty.Enum? && At(s, BE(id, 4))
    requires forall i :: 0 <= i < |ty.variants| ==> ty.variants[i].0 != id
    ensures Get(less, ty, s).1.err == Some(InvalidInput)
  {
    Pow256Values();
    TakeIntAt(s, id, 4);
  }

  /** A list that announces elements which take no bytes. */
  lemma EmptyElement(less: Order, ty: Ty, s: PState, n: u32, v: Val)
    requires KeyOrder(less) && ty.Vec? && DistinctIds(ty) && n > 0 && At(s, BE(n, 4))
    requires HasType(less, ty.elem, v) && Decodable(less, ty.elem, v) && Enc(less, ty.elem, v) == []
    ensures Get(less, ty, s).1.err == Some(InvalidInput)
  {
    Pow256Values();
    TakeIntAt(s, n, 4);
    var s1 := Skip(s, BE(n, 4));
    assert s1.buf[s1.off..s1.off] == [];
    DecodeInvertsEncode(less, ty.elem, v, s1);
  }

  /** A map whose second key is not above its first. */
  lemma KeysOutOfOrder(less: Order, ty: Ty, s: PState, n: u32, k: Val, v: Val, k2: Val)
    requires KeyOrder(less) && ty.Map? && DistinctIds(ty) && n >= 2
    requires HasType(less, ty.key, k) && HasType(less, ty.val, v) && HasType(less, ty.key, k2)
    requires Encodable(less, ty.key, k) && Decodable(less, ty.val, v) && Encodable(less, ty.key, k2)
    requires At(s, BE(n, 4) + ((Enc(less, ty.key, k) + Enc(less, ty.val, v)) + Enc(less, ty.key, k2)))
    requires Le(Enc(less, ty.key, k2), Enc(less, ty.key, k))
    ensures Get(less, ty, s).1.err == Some(InvalidInput)
  {
    hide Enc, HasType, Encodable, Decodable, Le, GetEntries;
    var kb, vb, kb2 := Enc(less, ty.key, k), Enc(less, ty.val, v), Enc(less, ty.key, k2);
    Pow256Values();
    AtSplit(s, BE(n, 4), kb + vb + kb2);
    TakeIntAt(s, n, 4);
    var s1 := Skip(s, BE(n, 4));
    AtSplit(s1, kb + vb, kb2);
    AtSplit(s1, kb, vb);
    EntryInverts(less, ty, k, v, s1, None);
    EmptyDict(less, ty);
    InsertEntryTyped(less, ty, [], k, v);
    var s2 := Skip(s1, kb + vb);
    EntryLoopTurns(less, ty, n, s1, None, [], k, v, Skip(s1, kb), s2, kb);
    EncodableIff(less, ty.key, k2);
    DecodeInvertsEncode(less, ty.key, k2, s2);
    KeyStateWrites(less, ty.key, k2);
    LowKey(less, ty, n - 1, s2, kb, InsertEntry(less, [], k, v), k2, Skip(s2, kb2));
  }

  lemma LowKey(less: Order, ty: Ty, n: nat, s: PState, prev: bytes, out: seq<(Val, Val)>, k: Val, s1: PState)
    requires KeyOrder(less) && ty.Map? && s.err.None? && DictTyped(less, ty, out) && n > 0
    requires Get(less, ty.key, s) == (Some(k), s1) && Le(KeyState(less, ty.key, k).buf, prev)
    ensures GetEntries(less, ty, n, s, Some(prev), out).1.err == Some(InvalidInput)
  {
  }

  /** The manager passes the reader's error on. */
  lemma ReaderErrorIs(
    less: Order, versions: set<u16>, maxSize: usize, version: u16, ty: Ty, data: bytes, e: PackerError)
    requires KeyOrder(less) && version in versions && |data| + VERSION_SIZE <= maxSize && e != Oversized
    requires Get(less, ty, Skip(NewRead(BE(version, 2) + data), BE(version, 2))).1.err == Some(e)
    ensures UnmarshalWith(less, versions, maxSize, ty, BE(version, 2) + data) == Err(PackerFailed(e))
  {
    hide Get;
    var src := BE(version, 2) + data;
    var s := NewRead(src);
    assert src[0..0 + |src|] == src;
    Pow256Values();
    AtSplit(s, BE(version, 2), data);
    TakeIntAt(s, version, 2);
  }
}
